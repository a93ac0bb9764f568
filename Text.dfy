/** The two string operations the treatment check relies on: JavaScript's
    `String.prototype.trim` and `String.prototype.toLowerCase`.
    `trim` is modelled exactly (ECMAScript's WhiteSpace and LineTerminator
    code points) on strings without lone surrogates, which a Dafny string
    cannot hold; `toLowerCase` is modelled on the ASCII letters only. */
module Text {

  /** The code points `trim` removes: ECMAScript's WhiteSpace (tab, vertical
      tab, form feed, space, no-break space, the byte order mark and the
      Unicode space separators) and LineTerminator (LF, CR, U+2028, U+2029). */
  predicate IsWhitespace(c: char) {
    var n := c as int;
    n == 0x09 || n == 0x0A || n == 0x0B || n == 0x0C || n == 0x0D || n == 0x20
    || n == 0xA0 || n == 0x1680 || (0x2000 <= n <= 0x200A)
    || n == 0x2028 || n == 0x2029 || n == 0x202F || n == 0x205F
    || n == 0x3000 || n == 0xFEFF
  }

  predicate AllWhitespace(s: string) {
    forall k :: 0 <= k < |s| ==> IsWhitespace(s[k])
  }

  /** A string that `trim` leaves alone: empty, or starting and ending with
      a non-whitespace character. */
  predicate IsTrimmed(s: string) {
    s == [] || (!IsWhitespace(s[0]) && !IsWhitespace(s[|s| - 1]))
  }

  /** The length of the longest all-whitespace prefix of `s`. */
  function LeadingSpace(s: string): (n: nat)
    ensures n <= |s|
    ensures forall k :: 0 <= k < n ==> IsWhitespace(s[k])
    ensures n < |s| ==> !IsWhitespace(s[n])
  {
    if s == [] || !IsWhitespace(s[0]) then 0 else 1 + LeadingSpace(s[1..])
  }

  /** The length of the longest all-whitespace suffix of `s`. */
  function TrailingSpace(s: string): (n: nat)
    ensures n <= |s|
    ensures forall k :: |s| - n <= k < |s| ==> IsWhitespace(s[k])
    ensures n < |s| ==> !IsWhitespace(s[|s| - 1 - n])
  {
    if s == [] || !IsWhitespace(s[|s| - 1]) then 0 else 1 + TrailingSpace(s[..|s| - 1])
  }

  /** `s.trim()`: `s` without its leading and trailing whitespace. */
  function Trim(s: string): (r: string)
    ensures IsTrimmed(r)
    ensures |r| <= |s|
  {
    var t := s[LeadingSpace(s)..];
    t[..|t| - TrailingSpace(t)]
  }

  /** Trimming only removes whitespace from the two ends: `s` is `Trim(s)`
      with a whitespace prefix and a whitespace suffix around it. */
  lemma TrimDecomposes(s: string)
    ensures exists pre, post :: AllWhitespace(pre) && AllWhitespace(post) && s == pre + Trim(s) + post
  {
    var i := LeadingSpace(s);
    var t := s[i..];
    var j := |t| - TrailingSpace(t);
    assert s == s[..i] + Trim(s) + t[j..];
    assert AllWhitespace(s[..i]);
    assert AllWhitespace(t[j..]) by {
      forall k | 0 <= k < |t| - j ensures IsWhitespace(t[j..][k]) {
        assert t[j..][k] == t[j + k];
      }
    }
  }

  /** The converse: whatever whitespace surrounds a trimmed string, `trim`
      gives back exactly that string. With TrimDecomposes this pins `Trim`
      down completely. */
  lemma TrimOfPadded(pre: string, core: string, post: string)
    requires AllWhitespace(pre) && AllWhitespace(post) && IsTrimmed(core)
    ensures Trim(pre + core + post) == core
  {
    var s := pre + core + post;
    var i := LeadingSpace(s);
    if core == [] {
      assert s == pre + post;
      assert AllWhitespace(s) by {
        forall k | 0 <= k < |s| ensures IsWhitespace(s[k]) {
          if k < |pre| { assert s[k] == pre[k]; } else { assert s[k] == post[k - |pre|]; }
        }
      }
      assert i == |s|;
    } else {
      assert s[|pre|] == core[0];
      assert forall k :: 0 <= k < |pre| ==> s[k] == pre[k];
      assert i == |pre|;
      var t := s[i..];
      assert t == core + post;
      var n := TrailingSpace(t);
      assert t[|core| - 1] == core[|core| - 1];
      assert forall k :: |core| <= k < |t| ==> t[k] == post[k - |core|];
      assert n == |post|;
      assert t[..|t| - n] == core;
    }
  }

  /** `trim` is idempotent. */
  lemma TrimIdempotent(s: string)
    ensures Trim(Trim(s)) == Trim(s)
  {
    TrimOfTrimmed(Trim(s));
  }

  /** A string without surrounding whitespace is its own trim. */
  lemma TrimOfTrimmed(s: string)
    requires IsTrimmed(s)
    ensures Trim(s) == s
  {
    TrimOfPadded([], s, []);
    assert [] + s + [] == s;
  }

  predicate IsAsciiUpper(c: char) {
    'A' <= c <= 'Z'
  }

  /** `toLowerCase` on one character, for the ASCII letters. */
  function LowerChar(c: char): (r: char)
    ensures !IsAsciiUpper(r)
    ensures IsAsciiUpper(c) ==> r as int == c as int + 32
    ensures !IsAsciiUpper(c) ==> r == c
  {
    if IsAsciiUpper(c) then (c as int + 32) as char else c
  }

  /** `s.toLowerCase()`, character by character. */
  function ToLower(s: string): (r: string)
    ensures |r| == |s|
    ensures forall k :: 0 <= k < |s| ==> r[k] == LowerChar(s[k])
  {
    seq(|s|, k requires 0 <= k < |s| => LowerChar(s[k]))
  }

  /** Two characters agree up to ASCII case. */
  predicate SameIgnoringCase(a: char, b: char) {
    a == b
    || (IsAsciiUpper(a) && b as int == a as int + 32)
    || (IsAsciiUpper(b) && a as int == b as int + 32)
  }

  /** Comparing lower-cased strings is comparing them up to ASCII case,
      in both directions. */
  lemma ToLowerEqualIff(a: string, b: string)
    ensures ToLower(a) == ToLower(b) <==>
            |a| == |b| && forall k :: 0 <= k < |a| ==> SameIgnoringCase(a[k], b[k])
  {
    if |a| == |b| && forall k :: 0 <= k < |a| ==> SameIgnoringCase(a[k], b[k]) {
      forall k | 0 <= k < |a| ensures ToLower(a)[k] == ToLower(b)[k] {
        assert SameIgnoringCase(a[k], b[k]);
      }
    }
    if ToLower(a) == ToLower(b) {
      forall k | 0 <= k < |a| ensures SameIgnoringCase(a[k], b[k]) {
        assert ToLower(a)[k] == ToLower(b)[k];
      }
    }
  }

  /** `s` occurs in `t` as a contiguous substring (JavaScript's `t.includes(s)`). */
  predicate Contains(t: string, s: string) {
    exists i :: 0 <= i <= |t| && s <= t[i..]
  }

  /** `t` ends with `s` (JavaScript's `t.endsWith(s)`). */
  predicate EndsWith(t: string, s: string) {
    |s| <= |t| && t[|t| - |s|..] == s
  }

  /** Containment is transitive: `s` inside `t` inside `u`. */
  lemma ContainsWithin(u: string, t: string, s: string)
    requires Contains(u, t) && Contains(t, s)
    ensures Contains(u, s)
  {
    var i :| 0 <= i <= |u| && t <= u[i..];
    var j :| 0 <= j <= |t| && s <= t[j..];
    forall k | 0 <= k < |s| ensures u[i + j + k] == s[k] {
      assert t[j + k] == s[k];
      assert u[i + (j + k)] == t[j + k];
    }
    assert s <= u[i + j..];
  }

  /** The three parts of a concatenation, recovered by slicing. */
  lemma Parts(a: string, b: string, c: string)
    ensures (a + b + c)[..|a|] == a
    ensures (a + b + c)[|a|..|a| + |b|] == b
    ensures (a + b + c)[|a| + |b|..] == c
  {
    var t := a + b + c;
    assert t[..|a|] == a;
    assert t[|a|..|a| + |b|] == b;
    assert t[|a| + |b|..] == c;
  }

  /** A part of a concatenation is contained in it. */
  lemma ContainsPart(a: string, s: string, b: string)
    ensures Contains(a + s + b, s)
  {
    var t := a + s + b;
    assert t[|a|..] == s + b;
  }
}
