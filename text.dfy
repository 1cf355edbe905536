/**
 * The handful of Python `str` operations the connectivity builder and the
 * VHDL serialiser rely on, over `string` (a sequence of Unicode scalar values).
 */
module Text {

  /** Python's `str.isspace()`: the characters `str.strip()` removes. */
  predicate IsSpace(c: char) {
    c == ' ' || ('\t' <= c <= '\r') || ('\U{1C}' <= c <= '\U{1F}')
    || c == '\U{85}' || c == '\U{A0}' || c == '\U{1680}'
    || ('\U{2000}' <= c <= '\U{200A}') || c == '\U{2028}' || c == '\U{2029}'
    || c == '\U{202F}' || c == '\U{205F}' || c == '\U{3000}'
  }

  /** First index at or after `i` that does not hold whitespace. */
  function SkipLeft(s: string, i: nat): (j: nat)
    requires i <= |s|
    ensures i <= j <= |s|
    ensures j < |s| ==> !IsSpace(s[j])
    ensures forall k :: i <= k < j ==> IsSpace(s[k])
    decreases |s| - i
  {
    if i < |s| && IsSpace(s[i]) then SkipLeft(s, i + 1) else i
  }

  /** End of `s[lo..j]` once trailing whitespace is dropped. */
  function SkipRight(s: string, lo: nat, j: nat): (k: nat)
    requires lo <= j <= |s|
    ensures lo <= k <= j
    ensures k > lo ==> !IsSpace(s[k - 1])
    ensures forall m :: k <= m < j ==> IsSpace(s[m])
    decreases j
  {
    if j > lo && IsSpace(s[j - 1]) then SkipRight(s, lo, j - 1) else j
  }

  /** A string with no whitespace at either end. */
  predicate IsTrimmed(s: string) {
    |s| > 0 ==> !IsSpace(s[0]) && !IsSpace(s[|s| - 1])
  }

  /** Python's `s.strip()`. */
  function Trim(s: string): (r: string)
    ensures IsTrimmed(r)
    ensures |r| <= |s|
  {
    var lo := SkipLeft(s, 0);
    s[lo..SkipRight(s, lo, |s|)]
  }

  /** Start of the slice of `s` that `Trim` keeps. */
  function TrimStart(s: string): (lo: nat)
    ensures lo + |Trim(s)| <= |s|
    ensures s[lo..lo + |Trim(s)|] == Trim(s)
  {
    SkipLeft(s, 0)
  }

  ghost predicate AllSpace(s: string) {
    forall i :: 0 <= i < |s| ==> IsSpace(s[i])
  }

  /** `strip()` removes only whitespace: `s` is the result with whitespace on either side. */
  lemma TrimParts(s: string)
    ensures exists w1, w2 :: AllSpace(w1) && AllSpace(w2) && s == w1 + Trim(s) + w2
  {
    var lo := SkipLeft(s, 0);
    var hi := SkipRight(s, lo, |s|);
    var w1, w2 := s[..lo], s[hi..];
    forall i | 0 <= i < |w1| ensures IsSpace(w1[i]) {
      assert w1[i] == s[i];
    }
    forall i | 0 <= i < |w2| ensures IsSpace(w2[i]) {
      assert w2[i] == s[hi + i];
    }
    assert s[lo..hi] == Trim(s);
    assert s == w1 + Trim(s) + w2;
    assert AllSpace(w1) && AllSpace(w2);
  }

  /** Stripping a string that has no whitespace at its ends changes nothing. */
  lemma TrimOfTrimmed(s: string)
    requires IsTrimmed(s)
    ensures Trim(s) == s
  {
    assert SkipLeft(s, 0) == 0;
    assert SkipRight(s, 0, |s|) == |s|;
  }

  /** `strip()` is idempotent. */
  lemma TrimIdempotent(s: string)
    ensures Trim(Trim(s)) == Trim(s)
  {
    TrimOfTrimmed(Trim(s));
  }

  /** Python's `str.lower()` restricted to ASCII letters. */
  function LowerChar(c: char): char {
    if 'A' <= c <= 'Z' then (c as int + 32) as char else c
  }

  function Lower(s: string): (r: string)
    ensures |r| == |s|
    ensures forall i :: 0 <= i < |s| ==> r[i] == LowerChar(s[i])
  {
    seq(|s|, i requires 0 <= i < |s| => LowerChar(s[i]))
  }

  predicate StartsWith(s: string, prefix: string) {
    |prefix| <= |s| && s[..|prefix|] == prefix
  }

  predicate EndsWith(s: string, suffix: string) {
    |suffix| <= |s| && s[|s| - |suffix|..] == suffix
  }

  lemma StartsWithAppend(a: string, b: string)
    ensures StartsWith(a + b, a)
  {
    assert (a + b)[..|a|] == a;
  }

  lemma EndsWithAppend(a: string, b: string, suffix: string, c: string)
    requires EndsWith(b, suffix)
    ensures EndsWith(a + b + c, suffix + c)
  {
    var t := a + b + c;
    assert t[|t| - |suffix + c|..] == b[|b| - |suffix|..] + c;
  }

  /** `[A-Za-z0-9_]`, the characters of a plain VHDL or Python identifier. */
  predicate IsWordChar(c: char) {
    ('A' <= c <= 'Z') || ('a' <= c <= 'z') || ('0' <= c <= '9') || c == '_'
  }

  /** Python's `str.isidentifier()` restricted to ASCII. */
  predicate IsIdentifier(s: string) {
    && |s| > 0
    && (('A' <= s[0] <= 'Z') || ('a' <= s[0] <= 'z') || s[0] == '_')
    && forall i :: 0 < i < |s| ==> IsWordChar(s[i])
  }

  /** Python's `s.index(c)`, defined when `c in s`. */
  function IndexOf(s: string, c: char): (i: nat)
    requires c in s
    ensures i < |s| && s[i] == c && c !in s[..i]
  {
    if s[0] == c then 0
    else
      assert c in s[1..];
      var k := IndexOf(s[1..], c);
      assert s[..k + 1] == [s[0]] + s[1..][..k];
      k + 1
  }

  /** Python's `sep.join(parts)`. */
  function Join(sep: string, parts: seq<string>): string
    decreases |parts|
  {
    if |parts| == 0 then ""
    else if |parts| == 1 then parts[0]
    else Join(sep, parts[..|parts| - 1]) + sep + parts[|parts| - 1]
  }

  /** Joining puts the last part at the very end, with nothing after it. */
  lemma JoinEndsWithLast(sep: string, parts: seq<string>)
    requires |parts| > 0
    ensures EndsWith(Join(sep, parts), parts[|parts| - 1])
  {
    var j := Join(sep, parts);
    var last := parts[|parts| - 1];
    if |parts| > 1 {
      assert j == (Join(sep, parts[..|parts| - 1]) + sep) + last;
    }
    assert j[|j| - |last|..] == last;
  }

  /** Joining puts the first part at the very start. */
  lemma {:induction false} JoinStartsWithFirst(sep: string, parts: seq<string>)
    requires |parts| > 0
    ensures StartsWith(Join(sep, parts), parts[0])
    decreases |parts|
  {
    if |parts| > 1 {
      var init := parts[..|parts| - 1];
      JoinStartsWithFirst(sep, init);
      assert Join(sep, parts) == Join(sep, init) + (sep + parts[|parts| - 1]);
      assert init[0] == parts[0];
    }
  }

  /** Every character of a join comes from a part or from the separator. */
  lemma {:induction false} JoinChars(sep: string, parts: seq<string>, c: char)
    requires c in Join(sep, parts)
    ensures c in sep || exists k :: 0 <= k < |parts| && c in parts[k]
    decreases |parts|
  {
    if |parts| > 1 {
      var init := parts[..|parts| - 1];
      var last := parts[|parts| - 1];
      var j := Join(sep, init);
      assert Join(sep, parts) == j + sep + last;
      if c in j {
        JoinChars(sep, init, c);
        if !(c in sep) {
          var k :| 0 <= k < |init| && c in init[k];
          assert parts[k] == init[k];
        }
      } else if !(c in sep) {
        assert c in last;
      }
    } else {
      assert parts[0] == Join(sep, parts);
    }
  }

  /** Python's `s.rstrip()`. */
  function RTrim(s: string): (r: string)
    ensures |r| <= |s| && r == s[..|r|]
    ensures |r| > 0 ==> !IsSpace(r[|r| - 1])
  {
    s[..SkipRight(s, 0, |s|)]
  }

  /** Python's `s.strip(chars)`: drops the characters of `chars` from both ends. */
  function StripChars(s: string, chars: set<char>): (r: string)
    ensures |r| <= |s|
    ensures |r| > 0 ==> r[0] !in chars && r[|r| - 1] !in chars
    decreases |s|
  {
    if |s| > 0 && s[0] in chars then StripChars(s[1..], chars)
    else if |s| > 0 && s[|s| - 1] in chars then StripChars(s[..|s| - 1], chars)
    else s
  }

  /** The character of one decimal digit. */
  function Digit(d: nat): (c: char)
    requires d < 10
    ensures '0' <= c <= '9'
  {
    (d + '0' as int) as char
  }

  /** Decimal digits of `n`, as Python's `str(n)` or an f-string writes them. */
  function Decimal(n: nat): (r: string)
    ensures |r| > 0
    ensures forall i :: 0 <= i < |r| ==> '0' <= r[i] <= '9'
  {
    if n < 10 then [Digit(n)]
    else Decimal(n / 10) + [Digit(n % 10)]
  }
}
