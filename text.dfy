/** String helpers the stores and the form rely on: JavaScript's `\s`
    whitespace class, `trim`, `toLowerCase` (ASCII folding), `includes`, and
    the set of name substrings the stores index. */
module Text {

  /** JavaScript's `\s`: the WhiteSpace and LineTerminator code points. */
  predicate IsSpace(c: char) {
    c == ' ' || c == '\t' || c == '\n' || c == '\r' || c == '\U{000B}' || c == '\U{000C}'
    || c == '\U{00A0}' || c == '\U{1680}' || ('\U{2000}' <= c <= '\U{200A}')
    || c == '\U{2028}' || c == '\U{2029}' || c == '\U{202F}' || c == '\U{205F}'
    || c == '\U{3000}' || c == '\U{FEFF}'
  }

  predicate IsDigit(c: char) {
    '0' <= c <= '9'
  }

  function LowerChar(c: char): char {
    if 'A' <= c <= 'Z' then (c as int + 32) as char else c
  }

  /** `toLowerCase`, folding the ASCII letters only. */
  function Lower(s: string): (r: string)
    ensures |r| == |s|
  {
    seq(|s|, i requires 0 <= i < |s| => LowerChar(s[i]))
  }

  /** Number of leading whitespace characters. */
  function LeadingSpaces(s: string): (k: nat)
    ensures k <= |s|
    ensures forall i :: 0 <= i < k ==> IsSpace(s[i])
    ensures k < |s| ==> !IsSpace(s[k])
  {
    if |s| > 0 && IsSpace(s[0]) then 1 + LeadingSpaces(s[1..]) else 0
  }

  /** Number of trailing whitespace characters. */
  function TrailingSpaces(s: string): (k: nat)
    ensures k <= |s|
    ensures forall i :: |s| - k <= i < |s| ==> IsSpace(s[i])
    ensures k < |s| ==> !IsSpace(s[|s| - 1 - k])
  {
    if |s| > 0 && IsSpace(s[|s| - 1]) then 1 + TrailingSpaces(s[..|s| - 1]) else 0
  }

  /** `trim`: drop leading, then trailing, whitespace. */
  function Trim(s: string): (r: string)
  {
    var t := s[LeadingSpaces(s)..];
    t[..|t| - TrailingSpaces(t)]
  }

  /** The trimmed string is the part of `s` between a run of whitespace on
      each side; it neither starts nor ends with whitespace, and it is empty
      exactly when `s` is whitespace only. */
  lemma TrimSpec(s: string)
    ensures exists a, b :: 0 <= a <= b <= |s| && Trim(s) == s[a..b]
                          && (forall i :: 0 <= i < a ==> IsSpace(s[i]))
                          && (forall i :: b <= i < |s| ==> IsSpace(s[i]))
    ensures Trim(s) != [] ==> !IsSpace(Trim(s)[0]) && !IsSpace(Trim(s)[|Trim(s)| - 1])
    ensures Trim(s) == [] <==> forall i :: 0 <= i < |s| ==> IsSpace(s[i])
  {
    var a := LeadingSpaces(s);
    var t := s[a..];
    var b := a + |t| - TrailingSpaces(t);
    assert Trim(s) == s[a..b];
    assert forall i :: b <= i < |s| ==> s[i] == t[i - a];
  }

  /** `p` occurs in `s` starting at index `t`. */
  predicate OccursAt(p: string, s: string, t: nat) {
    t <= |s| && p <= s[t..]
  }

  /** `s.includes(p)`. */
  predicate Includes(s: string, p: string) {
    exists t: nat | t <= |s| :: OccursAt(p, s, t)
  }

  /** Occurrence is transitive: what occurs in a piece of `s` occurs in `s`. */
  lemma {:induction false} IncludesTransitive(s: string, a: nat, b: nat, p: string)
    requires a <= b <= |s|
    requires Includes(s[a..b], p)
    ensures Includes(s, p)
  {
    var t: nat :| t <= b - a && OccursAt(p, s[a..b], t);
    assert |p| <= b - a - t;
    forall i | 0 <= i < |p| ensures p[i] == s[a + t..][i] {
      assert p[i] == s[a..b][t..][i];
    }
    assert OccursAt(p, s, a + t);
  }

  /** The substrings of `n` longer than two characters: the keys under which
      a (lower-cased) name is indexed. */
  function NameKeys(n: string): set<string> {
    set a, b | 0 <= a < b <= |n| && b - a > 2 :: n[a..b]
  }

  /** A query is contained in some indexed key of a name exactly when the
      name has at least three characters and contains the query. */
  lemma NameKeysMatch(n: string, q: string)
    ensures (exists k :: k in NameKeys(n) && Includes(k, q)) <==> (|n| >= 3 && Includes(n, q))
  {
    if |n| >= 3 && Includes(n, q) {
      assert n[0..|n|] == n;
      assert n in NameKeys(n);
    }
    if k :| k in NameKeys(n) && Includes(k, q) {
      var a, b :| 0 <= a < b <= |n| && b - a > 2 && k == n[a..b];
      IncludesTransitive(n, a, b, q);
    }
  }
}
