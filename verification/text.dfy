/** String helpers the terminal relies on: JavaScript's `String.prototype.trim`
    over an explicit whitespace predicate, `toLowerCase` over ASCII letters,
    and `startsWith`. */
module Text {

  /** The characters `trim` removes: ECMAScript WhiteSpace and LineTerminator. */
  predicate IsSpace(c: char) {
    || c == ' ' || c == '\t' || c == '\n' || c == '\r'
    || c == '\U{000B}' || c == '\U{000C}' || c == '\U{00A0}' || c == '\U{FEFF}'
    || c == '\U{1680}' || ('\U{2000}' <= c <= '\U{200A}')
    || c == '\U{2028}' || c == '\U{2029}' || c == '\U{202F}'
    || c == '\U{205F}' || c == '\U{3000}'
  }

  predicate AllSpace(s: string) {
    forall k :: 0 <= k < |s| ==> IsSpace(s[k])
  }

  /** `s` is `r` with only whitespace around it, `r` starting at offset `i`. */
  predicate PaddedAt(s: string, r: string, i: int) {
    && 0 <= i <= |s| - |r|
    && s[i..i + |r|] == r
    && AllSpace(s[..i])
    && AllSpace(s[i + |r|..])
  }

  /** `r` has no whitespace at either end. */
  predicate Tight(r: string) {
    r == [] || (!IsSpace(r[0]) && !IsSpace(r[|r| - 1]))
  }

  function TrimStart(s: string): string
    decreases |s|
  {
    if |s| > 0 && IsSpace(s[0]) then TrimStart(s[1..]) else s
  }

  function TrimEnd(s: string): string
    decreases |s|
  {
    if |s| > 0 && IsSpace(s[|s| - 1]) then TrimEnd(s[..|s| - 1]) else s
  }

  /** `TrimStart` drops a whitespace prefix and stops at the first other character. */
  lemma {:induction false} TrimStartSpec(s: string)
    ensures |TrimStart(s)| <= |s| && TrimStart(s) == s[|s| - |TrimStart(s)|..]
    ensures TrimStart(s) == [] || !IsSpace(TrimStart(s)[0])
    ensures AllSpace(s[..|s| - |TrimStart(s)|])
    decreases |s|
  {
    if |s| > 0 && IsSpace(s[0]) {
      var t := s[1..];
      TrimStartSpec(t);
      var r := TrimStart(t);
      assert s[..|s| - |r|] == [s[0]] + t[..|t| - |r|];
    }
  }

  /** `TrimEnd` drops a whitespace suffix and stops at the last other character. */
  lemma {:induction false} TrimEndSpec(s: string)
    ensures |TrimEnd(s)| <= |s| && TrimEnd(s) == s[..|TrimEnd(s)|]
    ensures TrimEnd(s) == [] || !IsSpace(TrimEnd(s)[|TrimEnd(s)| - 1])
    ensures AllSpace(s[|TrimEnd(s)|..])
    decreases |s|
  {
    if |s| > 0 && IsSpace(s[|s| - 1]) {
      var t := s[..|s| - 1];
      TrimEndSpec(t);
      var r := TrimEnd(t);
      assert s[|r|..] == t[|r|..] + [s[|s| - 1]];
    }
  }

  /** `input.trim()`: the input with the whitespace at both ends removed. */
  function Trim(s: string): (r: string)
    ensures Tight(r)
    ensures r == [] <==> AllSpace(s)
  {
    var t := TrimStart(s);
    var r := TrimEnd(t);
    TrimStartSpec(s);
    TrimEndSpec(t);
    var i := |s| - |t|;
    assert s[..i] == s[..|s| - |t|];
    assert s[i + |r|..] == t[|r|..];
    assert r == [] ==> s == s[..i] + s[i..];
    r
  }

  /** What `trim` removes is whitespace around the result, and nothing else. */
  lemma TrimRemovesPadding(s: string)
    ensures exists i :: PaddedAt(s, Trim(s), i)
  {
    var t := TrimStart(s);
    var r := TrimEnd(t);
    TrimStartSpec(s);
    TrimEndSpec(t);
    var i := |s| - |t|;
    assert t == s[i..] && r == t[..|r|];
    assert s[i..i + |r|] == r;
    assert s[..i] == s[..|s| - |t|];
    assert s[i + |r|..] == t[|r|..];
    assert Trim(s) == r;
    assert PaddedAt(s, Trim(s), i);
  }

  /** Trim undoes any whitespace padding of a string without whitespace at its ends. */
  lemma {:induction false} TrimPadded(p: string, v: string, q: string)
    requires AllSpace(p) && AllSpace(q) && Tight(v)
    ensures Trim(p + v + q) == v
  {
    if v == [] {
      assert p + v + q == p + q;
      assert AllSpace(p + q);
    } else {
      assert p + v + q == p + (v + q);
      TrimStartPadded(p, v + q);
      TrimEndPadded(v, q);
    }
  }

  lemma {:induction false} TrimStartPadded(p: string, w: string)
    requires AllSpace(p) && (w == [] || !IsSpace(w[0]))
    ensures TrimStart(p + w) == w
    decreases |p|
  {
    if p != [] {
      assert (p + w)[1..] == p[1..] + w;
      TrimStartPadded(p[1..], w);
    } else {
      assert p + w == w;
    }
  }

  lemma {:induction false} TrimEndPadded(v: string, q: string)
    requires AllSpace(q) && (v == [] || !IsSpace(v[|v| - 1]))
    ensures TrimEnd(v + q) == v
    decreases |q|
  {
    if q != [] {
      assert (v + q)[..|v + q| - 1] == v + q[..|q| - 1];
      TrimEndPadded(v, q[..|q| - 1]);
    } else {
      assert v + q == v;
    }
  }

  /** Trimming twice is trimming once. */
  lemma TrimIdempotent(s: string)
    ensures Trim(Trim(s)) == Trim(s)
  {
    TrimPadded([], Trim(s), []);
    assert [] + Trim(s) + [] == Trim(s);
  }

  /** `toLowerCase` on one character, restricted to the ASCII letters. */
  function LowerChar(c: char): (d: char)
    ensures !('A' <= d <= 'Z')
    ensures 'A' <= c <= 'Z' ==> d as int == c as int + 32
    ensures !('A' <= c <= 'Z') ==> d == c
  {
    if 'A' <= c <= 'Z' then (c as int + 32) as char else c
  }

  function ToLower(s: string): (r: string)
    ensures |r| == |s|
    ensures forall k :: 0 <= k < |s| ==> r[k] == LowerChar(s[k])
  {
    seq(|s|, k requires 0 <= k < |s| => LowerChar(s[k]))
  }

  /** Only lower-case ASCII letters. */
  predicate IsLowerWord(s: string) {
    forall k :: 0 <= k < |s| ==> 'a' <= s[k] <= 'z'
  }

  /** Lower-casing a word that is already lower case changes nothing. */
  lemma LowerOfLowerWord(s: string)
    requires IsLowerWord(s)
    ensures ToLower(s) == s
  {
  }

  /** A string whose lower-case form is a lower-case word has no whitespace in it:
      lower-casing never turns whitespace into a letter. */
  lemma {:induction false} LowerWordHasNoSpace(v: string)
    requires IsLowerWord(ToLower(v))
    ensures forall k :: 0 <= k < |v| ==> !IsSpace(v[k])
  {
    forall k | 0 <= k < |v| ensures !IsSpace(v[k]) {
      assert 'a' <= ToLower(v)[k] <= 'z';
      assert ToLower(v)[k] == LowerChar(v[k]);
    }
  }

  function StartsWith(s: string, prefix: string): (b: bool)
    ensures b <==> exists rest :: s == prefix + rest
  {
    if |prefix| <= |s| && s[..|prefix|] == prefix then
      assert s == prefix + s[|prefix|..];
      true
    else
      false
  }
}
