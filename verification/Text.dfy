/** Text operations of the standard library: trimming and ASCII case. */
module Text {

  predicate IsWhitespace(c: char) {
    || '\t' <= c <= '\r' || c == ' ' || c == '\U{0085}' || c == '\U{00A0}' || c == '\U{1680}'
    || '\U{2000}' <= c <= '\U{200A}' || c == '\U{2028}' || c == '\U{2029}' || c == '\U{202F}'
    || c == '\U{205F}' || c == '\U{3000}'
  }

  function Trim(s: string): string {
    if s == [] then s
    else if IsWhitespace(s[0]) then Trim(s[1..])
    else if IsWhitespace(s[|s| - 1]) then Trim(s[..|s| - 1])
    else s
  }

  /** What is left between `i` and `j` when the whitespace at both ends is taken off. */
  ghost predicate Between(s: string, i: nat, j: nat) {
    && i <= j <= |s| && (forall k :: 0 <= k < i ==> IsWhitespace(s[k])) && (forall k :: j <= k < |s| ==> IsWhitespace(s[k]))
    && (i < j ==> !IsWhitespace(s[i]) && !IsWhitespace(s[j - 1]))
  }

  lemma BetweenLater(s: string, i: nat, j: nat)
    requires s != [] && IsWhitespace(s[0]) && Between(s[1..], i, j)
    ensures Between(s, i + 1, j + 1) && s[i + 1..j + 1] == s[1..][i..j]
  {
    forall k | 0 <= k < |s| && (k < i + 1 || j + 1 <= k) ensures IsWhitespace(s[k]) {
      assert k > 0 ==> s[k] == s[1..][k - 1];
    }
    forall k | 0 <= k < j - i ensures s[i + 1..j + 1][k] == s[1..][i..j][k] {
    }
  }

  lemma BetweenSooner(s: string, i: nat, j: nat)
    requires s != [] && IsWhitespace(s[|s| - 1]) && Between(s[..|s| - 1], i, j)
    ensures Between(s, i, j) && s[i..j] == s[..|s| - 1][i..j]
  {
    forall k | 0 <= k < |s| && (k < i || j <= k) ensures IsWhitespace(s[k]) {
      assert k < |s| - 1 ==> s[k] == s[..|s| - 1][k];
    }
  }

  /** Trimming removes the whitespace at both ends and nothing else. */
  lemma {:induction false} TrimExactly(s: string) returns (i: nat, j: nat)
    ensures Between(s, i, j) && Trim(s) == s[i..j]
    decreases s
  {
    if s == [] {
      i, j := 0, 0;
    } else if IsWhitespace(s[0]) {
      var a, b := TrimExactly(s[1..]);
      BetweenLater(s, a, b);
      i, j := a + 1, b + 1;
    } else if IsWhitespace(s[|s| - 1]) {
      i, j := TrimExactly(s[..|s| - 1]);
      BetweenSooner(s, i, j);
    } else {
      i, j := 0, |s|;
    }
  }

  function LowerChar(c: char): char {
    if 'A' <= c <= 'Z' then c - 'A' + 'a' else c
  }

  function Lower(s: string): (t: string)
    ensures |t| == |s| && forall i :: 0 <= i < |s| ==> t[i] == LowerChar(s[i])
  {
    seq(|s|, i requires 0 <= i < |s| => LowerChar(s[i]))
  }

  predicate SameIgnoringCase(a: string, b: string) {
    Lower(a) == Lower(b)
  }

  // ----- Order -----------------------------------------------------------------------------------

  /** Lexicographic order by code point. */
  predicate LexLeq(a: string, b: string) {
    a == [] || (b != [] && (a[0] < b[0] || (a[0] == b[0] && LexLeq(a[1..], b[1..]))))
  }

  lemma LexTotal(a: string, b: string)
    ensures LexLeq(a, b) || LexLeq(b, a)
  {
  }

  lemma {:induction false} LexTransitive(a: string, b: string, c: string)
    requires LexLeq(a, b) && LexLeq(b, c)
    ensures LexLeq(a, c)
  {
    if a != [] && a[0] == b[0] == c[0] {
      LexTransitive(a[1..], b[1..], c[1..]);
    }
  }

  lemma LexReflexive(a: string)
    ensures LexLeq(a, a)
  {
  }

  lemma {:induction false} LexAntisymmetric(a: string, b: string)
    requires LexLeq(a, b) && LexLeq(b, a)
    ensures a == b
  {
    if a != [] {
      LexAntisymmetric(a[1..], b[1..]);
      assert a == [a[0]] + a[1..] && b == [b[0]] + b[1..];
    }
  }

  // ----- Identifiers -----------------------------------------------------------------------------

  /** The form under which identifiers are compared. */
  function Norm(id: string): string {
    Lower(Trim(id))
  }

  lemma {:induction false} TrimTrimmed(s: string)
    ensures Trim(Trim(s)) == Trim(s)
  {
    if s != [] {
      if IsWhitespace(s[0]) {
        TrimTrimmed(s[1..]);
      } else if IsWhitespace(s[|s| - 1]) {
        TrimTrimmed(s[..|s| - 1]);
      }
    }
  }

  lemma NormTrimmed(id: string)
    ensures Norm(Trim(id)) == Norm(id)
  {
    TrimTrimmed(id);
  }
}
