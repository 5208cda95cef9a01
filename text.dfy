/** The few JavaScript string operations the pages use: `trim`,
    `toLowerCase` and `includes`. `trim` strips the white space and line
    terminators of section 12.2 and 12.3 of ECMA-262; `toLowerCase` folds
    ASCII letters only. */
module Text {

  /** The characters `trim` strips: tab, vertical tab, form feed, the
      space separators (space, no-break space, U+1680, U+2000 to U+200A,
      U+202F, U+205F, U+3000), the byte order mark, and the line terminators
      line feed, carriage return, U+2028 and U+2029. */
  predicate IsSpace(c: char)
  {
    c == ' ' || c == '\t' || c == '\n' || c == '\r' || c == '\U{000B}' || c == '\U{000C}'
    || c == '\U{00A0}' || c == '\U{1680}' || ('\U{2000}' <= c <= '\U{200A}')
    || c == '\U{2028}' || c == '\U{2029}' || c == '\U{202F}' || c == '\U{205F}'
    || c == '\U{3000}' || c == '\U{FEFF}'
  }

  predicate AllSpace(s: string)
  {
    forall i :: 0 <= i < |s| ==> IsSpace(s[i])
  }

  /** The number of whitespace characters `s` starts with. */
  function LeadingSpaces(s: string): (k: nat)
    ensures k <= |s|
    ensures forall i :: 0 <= i < k ==> IsSpace(s[i])
    ensures k < |s| ==> !IsSpace(s[k])
  {
    if s == [] || !IsSpace(s[0]) then 0 else 1 + LeadingSpaces(s[1..])
  }

  /** The number of whitespace characters `s` ends with. */
  function TrailingSpaces(s: string): (k: nat)
    ensures k <= |s|
    ensures forall i :: |s| - k <= i < |s| ==> IsSpace(s[i])
    ensures k < |s| ==> !IsSpace(s[|s| - 1 - k])
  {
    if s == [] || !IsSpace(s[|s| - 1]) then 0 else 1 + TrailingSpaces(s[..|s| - 1])
  }

  /** `s.trim()`: `s` without its leading and trailing whitespace. */
  function Trim(s: string): (r: string)
    ensures |r| <= |s|
    ensures r != [] ==> !IsSpace(r[0]) && !IsSpace(r[|r| - 1])
  {
    var t := s[LeadingSpaces(s)..];
    t[..|t| - TrailingSpaces(t)]
  }

  /** `s.trim()` is empty exactly when `s` is all whitespace (the empty string included). */
  lemma TrimEmptyIff(s: string)
    ensures Trim(s) == [] <==> AllSpace(s)
  {
    var k := LeadingSpaces(s);
    var t := s[k..];
    if k < |s| {
      assert t[0] == s[k];
      assert !IsSpace(t[0]);
      assert TrailingSpaces(t) < |t|;
      assert !AllSpace(s);
    }
  }

  /** The leading white space of `s` is all white space. */
  lemma {:induction false} LeadingAllSpace(s: string)
    ensures AllSpace(s[..LeadingSpaces(s)])
  {
    var k := LeadingSpaces(s);
    forall i | 0 <= i < k ensures IsSpace(s[..k][i]) {
      assert s[..k][i] == s[i];
    }
  }

  /** The trailing white space of `t` is all white space. */
  lemma {:induction false} TrailingAllSpace(t: string)
    ensures AllSpace(t[|t| - TrailingSpaces(t)..])
  {
    var n := TrailingSpaces(t);
    var behind := t[|t| - n..];
    forall i | 0 <= i < |behind| ensures IsSpace(behind[i]) {
      assert behind[i] == t[|t| - n + i];
    }
  }

  /** `s.trim()` is the middle of `s`: what it cuts off in front and behind
      is white space, and putting those back gives `s`. */
  lemma {:induction false} TrimIsMiddle(s: string)
    ensures var k := LeadingSpaces(s); var r := Trim(s);
      && k + |r| <= |s|
      && s == s[..k] + r + s[k + |r|..]
      && AllSpace(s[..k]) && AllSpace(s[k + |r|..])
  {
    var k := LeadingSpaces(s);
    var t := s[k..];
    var n := TrailingSpaces(t);
    var r := t[..|t| - n];
    assert Trim(s) == r;
    CutBothEnds(s, k, n);
    var behind := s[k + |r|..];
    assert behind == t[|t| - n..];
    LeadingAllSpace(s);
    TrailingAllSpace(t);
    assert AllSpace(behind);
  }

  /** Cutting `k` elements off the front of `s` and then `n` off the back
      leaves the middle: front, middle and back together give `s`. */
  lemma CutBothEnds<T>(s: seq<T>, k: nat, n: nat)
    requires k + n <= |s|
    ensures var t := s[k..]; var r := t[..|t| - n];
      && k + |r| <= |s|
      && s == s[..k] + r + s[k + |r|..]
      && s[k + |r|..] == t[|t| - n..]
  {
    var t := s[k..];
    var r := t[..|t| - n];
    assert t == r + t[|t| - n..];
    assert s == s[..k] + t;
  }

  /** ASCII `toLowerCase` of one character. */
  function LowerChar(c: char): (d: char)
    ensures 'A' <= c <= 'Z' ==> 'a' <= d <= 'z' && d as int - c as int == 'a' as int - 'A' as int
    ensures !('A' <= c <= 'Z') ==> d == c
  {
    if 'A' <= c <= 'Z' then (c as int - 'A' as int + 'a' as int) as char else c
  }

  /** ASCII `toLowerCase` of a string. */
  function Lower(s: string): (r: string)
    ensures |r| == |s|
    ensures forall i :: 0 <= i < |s| ==> r[i] == LowerChar(s[i])
  {
    seq(|s|, i requires 0 <= i < |s| => LowerChar(s[i]))
  }

  /** `needle` occurs in `hay` starting at index `i`. */
  predicate OccursAt(hay: string, needle: string, i: int)
  {
    0 <= i && i + |needle| <= |hay| && hay[i..i + |needle|] == needle
  }

  /** `hay.includes(needle)`. */
  function Includes(hay: string, needle: string): (r: bool)
    ensures r <==> exists i :: OccursAt(hay, needle, i)
    decreases |hay|
  {
    if |needle| > |hay| then false
    else if hay[..|needle|] == needle then (assert OccursAt(hay, needle, 0); true)
    else
      var r := Includes(hay[1..], needle);
      assert r ==> exists i :: OccursAt(hay, needle, i) by {
        if r {
          var i :| OccursAt(hay[1..], needle, i);
          assert hay[1..][i..i + |needle|] == hay[i + 1..i + 1 + |needle|];
          assert OccursAt(hay, needle, i + 1);
        }
      }
      assert (exists i :: OccursAt(hay, needle, i)) ==> r by {
        if exists i :: OccursAt(hay, needle, i) {
          var i :| OccursAt(hay, needle, i);
          assert i != 0;
          assert hay[1..][i - 1..i - 1 + |needle|] == hay[i..i + |needle|];
          assert OccursAt(hay[1..], needle, i - 1);
        }
      }
      r
  }

  /** The empty string occurs in every string. */
  lemma IncludesEmpty(hay: string)
    ensures Includes(hay, "")
  {
    assert OccursAt(hay, "", 0);
  }
}
