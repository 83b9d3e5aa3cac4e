/**
 * The few JavaScript string operations the handlers rely on: `String.prototype.trim`,
 * `String.prototype.startsWith`, and the truthiness test that treats only "" as false.
 */
module JsString {

  /**
   * The code points `trim` removes: ECMAScript's WhiteSpace (tab, vertical tab, form feed,
   * zero-width no-break space and every space separator of Unicode category Zs) and
   * LineTerminator (line feed, carriage return, line and paragraph separators).
   */
  const WhitespaceChars: set<char> := {
    '\t', '\n', '\U{B}', '\U{C}', '\r', ' ', '\U{A0}', '\U{1680}',
    '\U{2000}', '\U{2001}', '\U{2002}', '\U{2003}', '\U{2004}', '\U{2005}',
    '\U{2006}', '\U{2007}', '\U{2008}', '\U{2009}', '\U{200A}',
    '\U{2028}', '\U{2029}', '\U{202F}', '\U{205F}', '\U{3000}', '\U{FEFF}'
  }

  predicate IsWhitespace(c: char) {
    c in WhitespaceChars
  }

  /** A blank string: empty or made of whitespace only. */
  predicate AllWhitespace(s: string) {
    forall i :: 0 <= i < |s| ==> IsWhitespace(s[i])
  }

  /** A string with no whitespace at either end, as `trim` leaves it. */
  predicate Trimmed(s: string) {
    s == [] || (!IsWhitespace(s[0]) && !IsWhitespace(s[|s| - 1]))
  }

  /** `s.startsWith(prefix)`: an exact, case-sensitive comparison of the first characters. */
  predicate StartsWith(s: string, prefix: string) {
    |prefix| <= |s| && s[..|prefix|] == prefix
  }

  /** The index of the first non-whitespace character of `s` at or after `i`, or `|s|`. */
  function SkipBlanksFrom(s: string, i: nat): (n: nat)
    requires i <= |s|
    ensures i <= n <= |s|
    ensures forall j :: i <= j < n ==> IsWhitespace(s[j])
    ensures n < |s| ==> !IsWhitespace(s[n])
    decreases |s| - i
  {
    if i < |s| && IsWhitespace(s[i]) then SkipBlanksFrom(s, i + 1) else i
  }

  /** The index just past the last non-whitespace character of `s[lo..j]`, or `lo`. */
  function SkipBlanksBack(s: string, lo: nat, j: nat): (n: nat)
    requires lo <= j <= |s|
    ensures lo <= n <= j
    ensures forall m :: n <= m < j ==> IsWhitespace(s[m])
    ensures n > lo ==> !IsWhitespace(s[n - 1])
    decreases j - lo
  {
    if j > lo && IsWhitespace(s[j - 1]) then SkipBlanksBack(s, lo, j - 1) else j
  }

  /**
   * `s.trim()`: the part of `s` between its leading and its trailing whitespace. It has no
   * whitespace at either end, and it is empty exactly when `s` is blank.
   */
  function Trim(s: string): (r: string)
    ensures Trimmed(r) && |r| <= |s|
    ensures r == "" <==> AllWhitespace(s)
  {
    var lo := SkipBlanksFrom(s, 0);
    var hi := SkipBlanksBack(s, lo, |s|);
    if lo == hi then
      s[lo..hi]
    else
      assert s[lo..hi][0] == s[lo] && s[lo..hi][hi - lo - 1] == s[hi - 1];
      s[lo..hi]
  }

  /** `s` is a blank prefix, then `Trim(s)`, then a blank suffix. */
  lemma TrimIsFramed(s: string)
    ensures exists k :: 0 <= k <= |s| - |Trim(s)| && s[k..k + |Trim(s)|] == Trim(s)
                        && AllWhitespace(s[..k]) && AllWhitespace(s[k + |Trim(s)|..])
  {
    var lo := SkipBlanksFrom(s, 0);
    var hi := SkipBlanksBack(s, lo, |s|);
    assert Trim(s) == s[lo..hi];
    assert AllWhitespace(s[..lo]) by {
      forall i | 0 <= i < lo ensures IsWhitespace(s[..lo][i]) {
        assert s[..lo][i] == s[i];
      }
    }
    assert AllWhitespace(s[hi..]) by {
      forall i | 0 <= i < |s| - hi ensures IsWhitespace(s[hi..][i]) {
        assert s[hi..][i] == s[hi + i];
      }
    }
  }

  /**
   * The result of `trim` is characterised by the frame alone: whenever `s` is a blank
   * prefix, a string without edge whitespace and a blank suffix, `trim` returns that string.
   */
  lemma TrimOfFramed(lead: string, core: string, trail: string)
    requires AllWhitespace(lead) && AllWhitespace(trail) && Trimmed(core)
    ensures Trim(lead + core + trail) == core
  {
    var s := lead + core + trail;
    var a, b := |lead|, |lead| + |core|;
    assert forall i :: 0 <= i < a ==> s[i] == lead[i];
    assert forall i :: a <= i < b ==> s[i] == core[i - a];
    assert forall i :: b <= i < |s| ==> s[i] == trail[i - b];
    if core == [] {
      assert AllWhitespace(s) by {
        forall i | 0 <= i < |s| ensures IsWhitespace(s[i]) {
          if i < a { assert IsWhitespace(lead[i]); } else { assert IsWhitespace(trail[i - b]); }
        }
      }
    } else {
      var lo := SkipBlanksFrom(s, 0);
      assert !IsWhitespace(s[a]);
      assert forall i :: 0 <= i < a ==> IsWhitespace(s[i]);
      assert lo == a;
      var hi := SkipBlanksBack(s, lo, |s|);
      assert !IsWhitespace(s[b - 1]);
      assert forall i :: b <= i < |s| ==> IsWhitespace(s[i]);
      assert hi == b;
      assert s[a..b] == core;
    }
  }

  /** Trimming twice is trimming once. */
  lemma TrimIdempotent(s: string)
    ensures Trim(Trim(s)) == Trim(s)
  {
    var r := Trim(s);
    assert r == [] + r + [];
    TrimOfFramed([], r, []);
  }
}
