/**
 * Whitespace and trimming as JavaScript's String.prototype.trim and the
 * regular-expression class \s define them. Both use the same set of
 * characters: the WhiteSpace and LineTerminator code points of ECMAScript.
 */
module Text {

  /** The characters that `\s` matches and that `trim()` removes. */
  const Spaces: set<char> := {
    '\U{0009}', '\U{000A}', '\U{000B}', '\U{000C}', '\U{000D}', ' ', '\U{00A0}', '\U{1680}',
    '\U{2000}', '\U{2001}', '\U{2002}', '\U{2003}', '\U{2004}', '\U{2005}', '\U{2006}',
    '\U{2007}', '\U{2008}', '\U{2009}', '\U{200A}', '\U{2028}', '\U{2029}', '\U{202F}',
    '\U{205F}', '\U{3000}', '\U{FEFF}' }

  predicate IsSpace(c: char) {
    c in Spaces
  }

  predicate AllSpace(s: string) {
    forall i | 0 <= i < |s| :: IsSpace(s[i])
  }

  /** A string that trim() leaves as it is: it neither starts nor ends with whitespace. */
  predicate IsTrimmed(s: string) {
    s == [] || (!IsSpace(s[0]) && !IsSpace(s[|s| - 1]))
  }

  /** The first index at or after `i` that does not hold whitespace, or |s|. */
  function SkipSpace(s: string, i: nat): (k: nat)
    requires i <= |s|
    ensures i <= k <= |s|
    ensures forall j | i <= j < k :: IsSpace(s[j])
    ensures k == |s| || !IsSpace(s[k])
    decreases |s| - i
  {
    if i < |s| && IsSpace(s[i]) then SkipSpace(s, i + 1) else i
  }

  /** The least index `k <= j` such that `s[k..j]` is all whitespace. */
  function SkipSpaceBack(s: string, j: nat): (k: nat)
    requires j <= |s|
    ensures k <= j
    ensures forall i | k <= i < j :: IsSpace(s[i])
    ensures k == 0 || !IsSpace(s[k - 1])
  {
    if j > 0 && IsSpace(s[j - 1]) then SkipSpaceBack(s, j - 1) else j
  }

  lemma SkipSpaceIs(s: string, i: nat, k: nat)
    requires i <= k <= |s|
    requires forall j | i <= j < k :: IsSpace(s[j])
    requires k == |s| || !IsSpace(s[k])
    ensures SkipSpace(s, i) == k
  {
  }

  lemma SkipSpaceBackIs(s: string, j: nat, k: nat)
    requires k <= j <= |s|
    requires forall i | k <= i < j :: IsSpace(s[i])
    requires k == 0 || !IsSpace(s[k - 1])
    ensures SkipSpaceBack(s, j) == k
  {
  }

  /** Number of whitespace characters trim() removes from the front of `s`. */
  function TrimOffset(s: string): (n: nat)
    ensures n <= |s|
  {
    SkipSpace(s, 0)
  }

  /** String.prototype.trim(): the middle part of `s` between its leading and trailing whitespace. */
  function Trim(s: string): (r: string)
    ensures IsTrimmed(r) && |r| <= |s|
  {
    var a := SkipSpace(s, 0);
    var b := SkipSpaceBack(s, |s|);
    if b <= a then
      []
    else
      s[a..b]
  }

  /** The result of trim() is the slice of `s` that starts after its leading whitespace. */
  lemma TrimIsSlice(s: string)
    ensures TrimOffset(s) + |Trim(s)| <= |s|
    ensures Trim(s) == s[TrimOffset(s)..TrimOffset(s) + |Trim(s)|]
  {
    var a := SkipSpace(s, 0);
    var b := SkipSpaceBack(s, |s|);
    if b <= a {
      assert a == |s|;
    }
  }

  /** Trim cuts `s` into leading whitespace, the result, and trailing whitespace. */
  lemma TrimParts(s: string)
    ensures TrimOffset(s) + |Trim(s)| <= |s|
    ensures Trim(s) == s[TrimOffset(s)..TrimOffset(s) + |Trim(s)|]
    ensures AllSpace(s[..TrimOffset(s)]) && AllSpace(s[TrimOffset(s) + |Trim(s)|..])
  {
    TrimIsSlice(s);
    var a := SkipSpace(s, 0);
    var b := SkipSpaceBack(s, |s|);
    if b <= a {
      assert s[a + 0..] == s[|s|..];
    }
  }

  /**
   * Trimming is determined by the decomposition of a string into leading
   * whitespace, a trimmed core and trailing whitespace: the core is the result.
   */
  lemma TrimUnique(w1: string, c: string, w2: string)
    requires AllSpace(w1) && AllSpace(w2) && IsTrimmed(c)
    ensures Trim(w1 + c + w2) == c
  {
    var s := w1 + c + w2;
    assert forall j | 0 <= j < |w1| :: s[j] == w1[j];
    assert forall j | |w1| + |c| <= j < |s| :: s[j] == w2[j - |w1| - |c|];
    if c == [] {
      SkipSpaceIs(s, 0, |s|);
      SkipSpaceBackIs(s, |s|, 0);
    } else {
      assert s[|w1|] == c[0];
      assert s[|w1| + |c| - 1] == c[|c| - 1];
      SkipSpaceIs(s, 0, |w1|);
      SkipSpaceBackIs(s, |s|, |w1| + |c|);
      assert s[|w1|..|w1| + |c|] == c;
    }
  }

  /**
   * Trimming the slice `s[lo..hi]` whose parts `lo..a` and `b..hi` are whitespace
   * and whose part `a..b` neither starts nor ends with whitespace gives `s[a..b]`.
   */
  lemma TrimSlice(s: string, lo: nat, a: nat, b: nat, hi: nat)
    requires lo <= a <= b <= hi <= |s|
    requires forall k | lo <= k < a :: IsSpace(s[k])
    requires forall k | b <= k < hi :: IsSpace(s[k])
    requires a == b || (!IsSpace(s[a]) && !IsSpace(s[b - 1]))
    ensures Trim(s[lo..hi]) == s[a..b]
  {
    var w1, c, w2 := s[lo..a], s[a..b], s[b..hi];
    assert s[lo..hi] == w1 + c + w2;
    assert AllSpace(w1) by {
      forall i | 0 <= i < |w1| ensures IsSpace(w1[i]) {
        assert w1[i] == s[lo + i];
      }
    }
    assert AllSpace(w2) by {
      forall i | 0 <= i < |w2| ensures IsSpace(w2[i]) {
        assert w2[i] == s[b + i];
      }
    }
    TrimUnique(w1, c, w2);
  }

  /** The trim of a slice is a slice within it. */
  lemma TrimOfSlice(s: string, lo: nat, hi: nat) returns (a: nat, b: nat)
    requires lo <= hi <= |s|
    ensures lo <= a <= b <= hi && Trim(s[lo..hi]) == s[a..b]
  {
    var t := s[lo..hi];
    TrimIsSlice(t);
    var x, n := TrimOffset(t), |Trim(t)|;
    assert Trim(t) == t[x..x + n];
    SliceOfSlice(s, lo, hi, x, x + n);
    a := lo + x;
    b := a + n;
  }

  /** A slice of a slice is a slice of the whole. */
  lemma SliceOfSlice(s: string, lo: nat, hi: nat, x: nat, y: nat)
    requires lo <= hi <= |s| && x <= y <= hi - lo
    ensures s[lo..hi][x..y] == s[lo + x..lo + y]
  {
    forall i | 0 <= i < y - x ensures s[lo..hi][x..y][i] == s[lo + x..lo + y][i] {
      assert s[lo..hi][x..y][i] == s[lo + x + i];
    }
  }

  /** Trimming twice is trimming once. */
  lemma TrimIdempotent(s: string)
    ensures Trim(Trim(s)) == Trim(s)
  {
    var c := Trim(s);
    assert c == [] + c + [];
    TrimUnique([], c, []);
  }

  /** A trimmed string is its own trim. */
  lemma TrimOfTrimmed(s: string)
    requires IsTrimmed(s)
    ensures Trim(s) == s
  {
    assert s == [] + s + [];
    TrimUnique([], s, []);
  }

  /** `s` with at most one leading apostrophe removed, as `replace(/^'/, "")`. */
  function StripApostrophe(s: string): (r: string)
    ensures s == r || s == "'" + r
    ensures r == s <==> s == [] || s[0] != '\''
  {
    if |s| > 0 && s[0] == '\'' then s[1..] else s
  }

  /** `s.substring(0, n)`: the first `n` characters, or all of `s` when it is shorter. */
  function Prefix(s: string, n: nat): (r: string)
    ensures |r| <= n && |r| <= |s| && r == s[..|r|]
    ensures |s| <= n ==> r == s
    ensures |s| > n ==> |r| == n
  {
    if |s| <= n then s else s[..n]
  }
}
