/** The string operations the request builder relies on: case-insensitive key
    comparison and the first `;`-separated segment of a header value. */
module Text {

  /** ASCII upper-case letters folded to lower case; other characters unchanged. */
  function LowerAscii(c: char): char
  {
    if 'A' <= c <= 'Z' then (c as int - 'A' as int + 'a' as int) as char else c
  }

  /** Equality of two strings ignoring the case of ASCII letters. */
  predicate EqualsIgnoreCase(a: string, b: string)
  {
    |a| == |b| && forall i :: 0 <= i < |a| ==> LowerAscii(a[i]) == LowerAscii(b[i])
  }

  /** Whether a header key names the content type, ignoring case. */
  predicate IsContentTypeKey(key: string)
  {
    EqualsIgnoreCase(key, "Content-Type")
  }

  /** Every spelling of the content-type key is recognised; other keys, even a near miss, are not. */
  lemma ContentTypeSpellings()
    ensures IsContentTypeKey("Content-Type")
    ensures IsContentTypeKey("content-type")
    ensures IsContentTypeKey("CONTENT-TYPE")
    ensures !IsContentTypeKey("Content-Typo")
    ensures !IsContentTypeKey("Accept")
  {
    forall i | 0 <= i < 12
      ensures LowerAscii("content-type"[i]) == "content-type"[i]
      ensures LowerAscii("Content-Type"[i]) == "content-type"[i]
      ensures LowerAscii("CONTENT-TYPE"[i]) == "content-type"[i]
    {
    }
    assert LowerAscii("Content-Typo"[11]) != LowerAscii("Content-Type"[11]);
  }

  /** The first element of splitting `s` at ';': the longest prefix of `s`
      that holds no ';'. */
  function FirstSegment(s: string): (r: string)
    ensures r <= s
    ensures ';' !in r
    ensures |r| < |s| ==> s[|r|] == ';'
  {
    if s == [] || s[0] == ';' then [] else [s[0]] + FirstSegment(s[1..])
  }

  /** A value without ';' is its own first segment. */
  lemma {:induction false} FirstSegmentWhole(s: string)
    requires ';' !in s
    ensures FirstSegment(s) == s
  {
  }

  /** Everything from the first ';' on is dropped. */
  lemma {:induction false} FirstSegmentUpTo(s: string, k: nat)
    requires k < |s| && s[k] == ';'
    requires ';' !in s[..k]
    ensures FirstSegment(s) == s[..k]
  {
  }

  /** The media type of "application/json; charset=utf-8" is "application/json". */
  lemma CharsetParameterDropped()
    ensures FirstSegment("application/json; charset=utf-8") == "application/json"
  {
    var s := "application/json; charset=utf-8";
    assert s[..16] == "application/json";
    FirstSegmentUpTo(s, 16);
  }
}
