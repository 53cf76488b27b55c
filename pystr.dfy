/**
 * The few Python `str` operations the converters use, restricted to what
 * they do on ASCII text: `strip()`, `split(sep)` and `lower()`. `Join`
 * is not used by the converters; it states the inverse of `Split`.
 */
module PyStr {

  /** The ASCII characters `str.isspace()` accepts and `str.strip()` removes:
      space, tab, line feed, vertical tab, form feed, carriage return, and
      the four separators U+001C to U+001F. */
  predicate IsSpace(c: char)
  {
    c == ' ' || '\t' <= c <= '\r' || '\U{001C}' <= c <= '\U{001F}'
  }

  predicate AllSpace(s: string)
  {
    forall i :: 0 <= i < |s| ==> IsSpace(s[i])
  }

  /** Number of whitespace characters at the start of `s`. */
  function LeadingSpace(s: string): (k: nat)
    ensures k <= |s|
    ensures forall j :: 0 <= j < k ==> IsSpace(s[j])
    ensures k < |s| ==> !IsSpace(s[k])
  {
    if s != [] && IsSpace(s[0]) then 1 + LeadingSpace(s[1..]) else 0
  }

  /** Number of whitespace characters at the end of `s`. */
  function TrailingSpace(s: string): (k: nat)
    ensures k <= |s|
    ensures forall j :: |s| - k <= j < |s| ==> IsSpace(s[j])
    ensures k < |s| ==> !IsSpace(s[|s| - 1 - k])
  {
    if s != [] && IsSpace(s[|s| - 1]) then 1 + TrailingSpace(s[..|s| - 1]) else 0
  }

  /** `s.strip()`: `s` without its leading and trailing whitespace. */
  function Strip(s: string): (r: string)
    ensures |r| <= |s|
    ensures r != [] ==> !IsSpace(r[0]) && !IsSpace(r[|r| - 1])
  {
    var i := LeadingSpace(s);
    s[i..|s| - TrailingSpace(s[i..])]
  }

  /** What `strip()` removes is whitespace on both ends: the result is the
      characters of `s` from position `LeadingSpace(s)` on, and everything
      of `s` before and after them is whitespace. */
  lemma StripSlice(s: string)
    ensures var i, r := LeadingSpace(s), Strip(s);
      i + |r| <= |s| &&
      (forall j :: 0 <= j < |r| ==> r[j] == s[i + j]) &&
      (forall j :: 0 <= j < i ==> IsSpace(s[j])) &&
      (forall j :: i + |r| <= j < |s| ==> IsSpace(s[j]))
  {
    var i := LeadingSpace(s);
    var t := s[i..];
    var k := TrailingSpace(t);
    assert Strip(s) == t[..|t| - k];
    forall j | i + |t| - k <= j < |s|
      ensures IsSpace(s[j])
    {
      assert s[j] == t[j - i];
    }
  }

  /** `strip()` leaves nothing exactly when `s` is all whitespace. */
  lemma StripEmpty(s: string)
    ensures Strip(s) == [] <==> AllSpace(s)
  {
    var i := LeadingSpace(s);
    if i < |s| {
      var t := s[i..];
      assert t[0] == s[i];
      TrailingSpaceStops(t);
      assert Strip(s)[0] == s[i];
    }
  }

  lemma {:induction false} TrailingSpaceStops(t: string)
    requires t != [] && !IsSpace(t[0])
    ensures TrailingSpace(t) < |t|
  {
    if |t| > 1 && IsSpace(t[|t| - 1]) {
      TrailingSpaceStops(t[..|t| - 1]);
    }
  }

  /** `s.split(sep)`: the pieces between occurrences of `sep`; there is always
      one piece more than there are separators. */
  function Split(s: string, sep: char): (r: seq<string>)
    ensures |r| == Count(s, sep) + 1
    ensures forall k :: 0 <= k < |r| ==> sep !in r[k]
  {
    if s == [] then [[]]
    else
      var rest := Split(s[1..], sep);
      if s[0] == sep then [[]] + rest else [[s[0]] + rest[0]] + rest[1..]
  }

  function Count(s: string, c: char): (n: nat)
    ensures n <= |s|
  {
    if s == [] then 0 else (if s[0] == c then 1 else 0) + Count(s[1..], c)
  }

  /** `sep.join(parts)`. */
  function Join(parts: seq<string>, sep: char): string
    requires |parts| > 0
  {
    if |parts| == 1 then parts[0] else parts[0] + [sep] + Join(parts[1..], sep)
  }

  /** Splitting and joining on the same separator are inverse. */
  lemma {:induction false} JoinSplit(s: string, sep: char)
    ensures Join(Split(s, sep), sep) == s
  {
    if s != [] {
      var rest := Split(s[1..], sep);
      JoinSplit(s[1..], sep);
      if s[0] == sep {
        assert Split(s, sep)[1..] == rest;
      } else {
        var r := Split(s, sep);
        if |rest| == 1 {
          assert r == [[s[0]] + rest[0]];
        } else {
          assert r[1..] == rest[1..];
          assert Join(r, sep) == [s[0]] + rest[0] + [sep] + Join(rest[1..], sep);
        }
      }
    }
  }

  /** Stripping twice is stripping once. */
  lemma StripIdempotent(s: string)
    ensures Strip(Strip(s)) == Strip(s)
  {
    var r := Strip(s);
    if r != [] {
      assert LeadingSpace(r) == 0;
      assert r[0..] == r;
      assert TrailingSpace(r) == 0;
    }
  }

  /** `str.lower()` on ASCII: upper-case letters map to lower case, every
      other character is kept. */
  function Lower(c: char): (d: char)
    ensures !('A' <= d <= 'Z')
    ensures 'A' <= c <= 'Z' ==> d as int == c as int + 32
    ensures !('A' <= c <= 'Z') ==> d == c
  {
    if 'A' <= c <= 'Z' then (c as int + 32) as char else c
  }

  function LowerStr(s: string): (r: string)
    ensures |r| == |s|
    ensures forall i :: 0 <= i < |s| ==> r[i] == Lower(s[i])
  {
    if s == [] then [] else [Lower(s[0])] + LowerStr(s[1..])
  }
}
