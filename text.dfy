/**
  Normalisation of what the player typed: lower-case it, then trim the
  white space and line breaks around it.

  Lower-casing covers the ASCII letters A-Z only.  The characters trimmed are
  those of Foundation's `whitespacesAndNewlines` set: the Unicode space,
  line and paragraph separators (general category Z), the tab, the line
  breaks U+000A to U+000D and NEXT LINE (U+0085).
*/
module Text {

  predicate IsUpper(c: char) {
    'A' <= c <= 'Z'
  }

  /**
    Membership in Foundation's `whitespacesAndNewlines`: the space, tab and
    line breaks belong to it, and no ASCII letter or digit does.
  */
  predicate IsWhitespace(c: char): (b: bool)
    ensures c == ' ' || c == '\t' || c == '\n' || c == '\r' ==> b
    ensures b ==> !IsUpper(c) && !('a' <= c <= 'z') && !('0' <= c <= '9')
  {
    || c == ' ' || c == '\t' || '\n' <= c <= '\r'
    || c == '\U{85}' || c == '\U{A0}' || c == '\U{1680}'
    || '\U{2000}' <= c <= '\U{200A}'
    || c == '\U{2028}' || c == '\U{2029}' || c == '\U{202F}' || c == '\U{205F}' || c == '\U{3000}'
  }

  predicate AllWhitespace(s: string) {
    forall i :: 0 <= i < |s| ==> IsWhitespace(s[i])
  }

  /** The lower-case form of an ASCII capital; every other character maps to itself. */
  function LowerChar(c: char): (d: char)
    ensures !IsUpper(d)
    ensures IsWhitespace(d) <==> IsWhitespace(c)
    ensures d == c <==> !IsUpper(c)
    ensures IsUpper(c) ==> d as int == c as int + 32
  {
    if IsUpper(c) then (c as int - 'A' as int + 'a' as int) as char else c
  }

  /** `c` and `d` are the capital and the lower-case form of one ASCII letter, in either order. */
  predicate CasePair(c: char, d: char) {
    || (IsUpper(c) && d as int == c as int + 32)
    || (IsUpper(d) && c as int == d as int + 32)
  }

  /** Two characters lower-case alike exactly when they are equal or the two cases of one letter. */
  lemma LowerCharIdentifiesCase(c: char, d: char)
    ensures LowerChar(c) == LowerChar(d) <==> c == d || CasePair(c, d)
  {
  }

  /** `s` with every capital letter replaced by its lower-case form. */
  function Lowercased(s: string): (r: string)
    ensures |r| == |s|
    ensures forall i :: 0 <= i < |r| ==> !IsUpper(r[i])
    ensures forall i :: 0 <= i < |r| ==> (r[i] == s[i] <==> !IsUpper(s[i]))
    ensures forall i :: 0 <= i < |r| && IsUpper(s[i]) ==> r[i] as int == s[i] as int + 32
    ensures forall i :: 0 <= i < |r| ==> (IsWhitespace(r[i]) <==> IsWhitespace(s[i]))
  {
    seq(|s|, i requires 0 <= i < |s| => LowerChar(s[i]))
  }

  /** Two strings lower-case alike exactly when they agree position by position up to the case of letters. */
  lemma LowercasedIdentifiesCase(s: string, t: string)
    ensures Lowercased(s) == Lowercased(t)
        <==> |s| == |t| && forall i :: 0 <= i < |s| ==> s[i] == t[i] || CasePair(s[i], t[i])
  {
    if |s| == |t| {
      forall i | 0 <= i < |s|
        ensures Lowercased(s)[i] == Lowercased(t)[i] <==> s[i] == t[i] || CasePair(s[i], t[i])
      {
        LowerCharIdentifiesCase(s[i], t[i]);
      }
    }
  }

  /** Length of the white-space run at the start of `s`. */
  function LeadingWhitespace(s: string): (k: nat)
    ensures k <= |s|
    ensures forall i :: 0 <= i < k ==> IsWhitespace(s[i])
    ensures k < |s| ==> !IsWhitespace(s[k])
  {
    if s != [] && IsWhitespace(s[0]) then 1 + LeadingWhitespace(s[1..]) else 0
  }

  /** Length of the white-space run at the end of `s`. */
  function TrailingWhitespace(s: string): (k: nat)
    ensures k <= |s|
    ensures forall i :: |s| - k <= i < |s| ==> IsWhitespace(s[i])
    ensures k < |s| ==> !IsWhitespace(s[|s| - 1 - k])
  {
    if s != [] && IsWhitespace(s[|s| - 1]) then 1 + TrailingWhitespace(s[..|s| - 1]) else 0
  }

  /** `s` without the white space around it: empty, or starting and ending with something else. */
  function Trim(s: string): (r: string)
    ensures |r| <= |s|
    ensures r == [] || (!IsWhitespace(r[0]) && !IsWhitespace(r[|r| - 1]))
  {
    var t := s[LeadingWhitespace(s)..];
    t[..|t| - TrailingWhitespace(t)]
  }

  /** The normalised answer: lower-cased first, then trimmed. */
  function Normalize(s: string): (r: string)
    ensures |r| <= |s|
    ensures forall i :: 0 <= i < |r| ==> !IsUpper(r[i])
    ensures r == [] || (!IsWhitespace(r[0]) && !IsWhitespace(r[|r| - 1]))
  {
    Trim(Lowercased(s))
  }

  /** Trim is pinned down by what it removes: white space on both sides of a core that does not start or end with white space. */
  lemma {:induction false} TrimOf(p: string, core: string, q: string)
    requires AllWhitespace(p) && AllWhitespace(q)
    requires core == [] || (!IsWhitespace(core[0]) && !IsWhitespace(core[|core| - 1]))
    ensures Trim(p + core + q) == core
  {
    var s := p + core + q;
    LeadingOf(p, core + q);
    assert s == p + (core + q);
    var t := s[LeadingWhitespace(s)..];
    if core == [] {
      assert AllWhitespace(q);
      assert t == [];
    } else {
      assert t == core + q;
      TrailingOf(core, q);
    }
  }

  lemma {:induction false} LeadingOf(p: string, s: string)
    requires AllWhitespace(p)
    ensures LeadingWhitespace(p + s) == |p| + LeadingWhitespace(s)
  {
    if p != [] {
      assert (p + s)[1..] == p[1..] + s;
      LeadingOf(p[1..], s);
    } else {
      assert p + s == s;
    }
  }

  lemma {:induction false} TrailingOf(s: string, q: string)
    requires AllWhitespace(q)
    ensures TrailingWhitespace(s + q) == TrailingWhitespace(s) + |q|
  {
    if q != [] {
      var u := s + q;
      assert u[..|u| - 1] == s + q[..|q| - 1];
      TrailingOf(s, q[..|q| - 1]);
    } else {
      assert s + q == s;
    }
  }

  /** Every string is its trimmed core with white space on either side. */
  lemma TrimSplit(s: string) returns (p: string, q: string)
    ensures AllWhitespace(p) && AllWhitespace(q)
    ensures s == p + Trim(s) + q
  {
    var k := LeadingWhitespace(s);
    var t := s[k..];
    var m := TrailingWhitespace(t);
    assert Trim(s) == t[..|t| - m];
    p, q := SplitAround(s, k, |t| - m);
  }

  /** Cutting `s` into a white-space prefix of length `k`, a middle of length `j` and a white-space rest. */
  lemma SplitAround(s: string, k: nat, j: nat) returns (p: string, q: string)
    requires k <= |s| && j <= |s| - k
    requires forall i :: 0 <= i < k ==> IsWhitespace(s[i])
    requires forall i :: j <= i < |s[k..]| ==> IsWhitespace(s[k..][i])
    ensures AllWhitespace(p) && AllWhitespace(q)
    ensures s == p + s[k..][..j] + q
  {
    p, q := s[..k], s[k..][j..];
    assert s == s[..k] + s[k..];
    assert s[k..] == s[k..][..j] + s[k..][j..];
  }

  /** A string with no capitals and no white space at either end is its own normal form. */
  lemma NormalFormIsFixed(s: string)
    requires forall i :: 0 <= i < |s| ==> !IsUpper(s[i])
    requires s == [] || (!IsWhitespace(s[0]) && !IsWhitespace(s[|s| - 1]))
    ensures Normalize(s) == s
  {
    assert Lowercased(s) == s;
    TrimOf([], s, []);
    assert [] + s + [] == s;
  }

  /** Normalising a normalised answer changes nothing. */
  lemma NormalizeIdempotent(s: string)
    ensures Normalize(Normalize(s)) == Normalize(s)
  {
    NormalFormIsFixed(Normalize(s));
  }

  /**
    Case and surrounding white space do not affect the answer: padding a
    string with white space, or changing the case of its letters, leaves its
    normal form unchanged.
  */
  lemma NormalizeIgnoresCaseAndPadding(s: string, t: string, p: string, q: string)
    requires AllWhitespace(p) && AllWhitespace(q)
    requires Lowercased(t) == Lowercased(s)
    ensures Normalize(p + t + q) == Normalize(s)
  {
    LowercasedPadded(t, p, q);
    TrimPadded(Lowercased(s), p, q);
  }

  /** White space has no capitals, so lower-casing passes padding through. */
  lemma LowercasedPadded(t: string, p: string, q: string)
    requires AllWhitespace(p) && AllWhitespace(q)
    ensures Lowercased(p + t + q) == p + Lowercased(t) + q
  {
    var r, u := Lowercased(p + t + q), p + Lowercased(t) + q;
    assert |r| == |u|;
    forall i | 0 <= i < |r| ensures r[i] == u[i] {
      if i < |p| {
        assert (p + t + q)[i] == p[i];
      } else if i < |p| + |t| {
        assert (p + t + q)[i] == t[i - |p|];
      } else {
        assert (p + t + q)[i] == q[i - |p| - |t|];
      }
    }
  }

  /** Extra white space around a string does not change its trimmed core. */
  lemma TrimPadded(x: string, p: string, q: string)
    requires AllWhitespace(p) && AllWhitespace(q)
    ensures Trim(p + x + q) == Trim(x)
  {
    var a, b := TrimSplit(x);
    var core := Trim(x);
    WhitespaceConcat(p, a);
    WhitespaceConcat(b, q);
    Regroup(p, a, core, b, q);
    TrimOf(p + a, core, b + q);
  }

  lemma Regroup(p: string, a: string, core: string, b: string, q: string)
    ensures p + (a + core + b) + q == (p + a) + core + (b + q)
  {
  }

  lemma WhitespaceConcat(a: string, b: string)
    requires AllWhitespace(a) && AllWhitespace(b)
    ensures AllWhitespace(a + b)
  {
    forall i | |a| <= i < |a + b| ensures IsWhitespace((a + b)[i]) {
      assert (a + b)[i] == b[i - |a|];
    }
  }
}
