/** String helpers with the meaning Python gives them: `str.lower` (ASCII
    letters only), `sep.join(parts)` and the substring test `needle in hay`. */
module Text {

  predicate IsUpperAscii(c: char) {
    'A' <= c <= 'Z'
  }

  function LowerChar(c: char): char {
    if IsUpperAscii(c) then (c as int + 32) as char else c
  }

  /** `s.lower()`, restricted to the ASCII letters. */
  function Lower(s: string): (r: string)
    ensures |r| == |s|
    ensures forall i :: 0 <= i < |s| ==> r[i] == LowerChar(s[i])
  {
    if |s| == 0 then "" else [LowerChar(s[0])] + Lower(s[1..])
  }

  predicate IsPrefix(p: string, s: string) {
    |p| <= |s| && s[..|p|] == p
  }

  predicate IsSuffix(p: string, s: string) {
    |p| <= |s| && s[|s| - |p|..] == p
  }

  /** Python's `needle in hay` on strings. */
  predicate IsSubstring(needle: string, hay: string) {
    exists i :: 0 <= i <= |hay| && IsPrefix(needle, hay[i..])
  }

  /** Python's `sep.join(parts)`. */
  function Join(sep: string, parts: seq<string>): string {
    if |parts| == 0 then ""
    else if |parts| == 1 then parts[0]
    else parts[0] + sep + Join(sep, parts[1..])
  }

  /** Every part shows up in the joined text. */
  lemma {:induction false} JoinContainsParts(sep: string, parts: seq<string>, k: nat)
    requires k < |parts|
    ensures IsSubstring(parts[k], Join(sep, parts))
  {
    var j := Join(sep, parts);
    if k == 0 {
      assert IsPrefix(parts[0], j[0..]);
    } else {
      JoinContainsParts(sep, parts[1..], k - 1);
      var tail := Join(sep, parts[1..]);
      var i :| 0 <= i <= |tail| && IsPrefix(parts[k], tail[i..]);
      var off := |parts[0]| + |sep|;
      assert j == parts[0] + sep + tail;
      assert j[off + i..] == tail[i..];
      assert IsPrefix(parts[k], j[off + i..]);
    }
  }

  lemma SuffixOfConcat(a: string, b: string)
    ensures IsSuffix(b, a + b)
  {
    assert (a + b)[|a|..] == b;
  }

  lemma PrefixOfConcat(a: string, b: string)
    ensures IsPrefix(a, a + b)
  {
    assert (a + b)[..|a|] == a;
  }

  /** Text added after the hay keeps every substring of it. */
  lemma SubstringBefore(x: string, b: string, c: string)
    requires IsSubstring(x, b)
    ensures IsSubstring(x, b + c)
  {
    var i :| 0 <= i <= |b| && IsPrefix(x, b[i..]);
    assert (b + c)[i..][..|x|] == b[i..][..|x|];
  }

  /** Text added before the hay keeps every substring of it. */
  lemma SubstringAfter(x: string, a: string, b: string)
    requires IsSubstring(x, b)
    ensures IsSubstring(x, a + b)
  {
    var i :| 0 <= i <= |b| && IsPrefix(x, b[i..]);
    assert (a + b)[|a| + i..] == b[i..];
  }

  /** `a + m + c` starts with `a` and ends with `c`. */
  lemma FramedBy(a: string, m: string, c: string)
    ensures IsPrefix(a, a + m + c)
    ensures IsSuffix(c, a + m + c)
  {
    assert (a + m + c)[..|a|] == a;
    assert (a + m + c)[|a| + |m|..] == c;
  }

  lemma SubstringSelf(x: string)
    ensures IsSubstring(x, x)
  {
    assert IsPrefix(x, x[0..]);
  }
}
