/**
 * The section extractor of the analysis service (`parseAiSections_`).
 *
 * For each of six fixed labels the generated text is searched with the
 * pattern  \[title\]\s*([\s\S]*?)(?=\s*\[[^\]]+\]|$)  and the captured group is
 * trimmed. The pattern is modelled by a hand-written scanner:
 *   - the match starts at the FIRST occurrence of "[title]" (a later occurrence is
 *     never used, because a match starting at the first one always succeeds);
 *   - the greedy \s* skips all whitespace after the tag;
 *   - the lazy group stops at the first position from which optional whitespace,
 *     '[', at least one character other than ']' and then ']' follow, or at the
 *     end of the text ($ without the multiline flag).
 * The case-insensitive flag changes nothing for the Hangul labels.
 */
module SectionParser {
  import opened Text
  import opened Wrappers

  /** The six result fields of one analysis. */
  datatype Sections = Sections(
    summary: string,
    health: string,
    foods: string,
    avoid: string,
    productKeywords: string,
    promo: string)

  const SummaryLabel: string := "사주요약"
  const HealthLabel: string := "건강주의"
  const FoodsLabel: string := "추천음식"
  const AvoidLabel: string := "피해야할음식"
  const KeywordsLabel: string := "상품추천키워드"
  const PromoLabel: string := "홍보문구"

  /** A section header as it appears in the text: the title in square brackets. */
  function Tag(title: string): string {
    "[" + title + "]"
  }

  /** The tag of `title` occurs in `text` at index `i`. */
  predicate TagAt(text: string, i: nat, title: string) {
    i + |Tag(title)| <= |text| && text[i..i + |Tag(title)|] == Tag(title)
  }

  /** The first index at or after `from` where the tag of `title` occurs. */
  function FindTag(text: string, title: string, from: nat): (r: Option<nat>)
    requires from <= |text|
    ensures r.Some? ==> from <= r.value && TagAt(text, r.value, title)
    decreases |text| - from
  {
    if TagAt(text, from, title) then Some(from)
    else if from == |text| then None
    else FindTag(text, title, from + 1)
  }

  /** FindTag finds the first occurrence, and finds nothing only when there is none. */
  lemma {:induction false} FindTagFirst(text: string, title: string, from: nat)
    requires from <= |text|
    ensures FindTag(text, title, from).Some? ==>
      forall k: nat | from <= k < FindTag(text, title, from).value :: !TagAt(text, k, title)
    ensures FindTag(text, title, from).None? ==> forall k: nat | from <= k :: !TagAt(text, k, title)
    decreases |text| - from
  {
    if !TagAt(text, from, title) && from < |text| {
      FindTagFirst(text, title, from + 1);
    }
  }

  /** Some ']' stands at index `k` or later. */
  predicate ClosesAfter(text: string, k: nat)
    decreases |text| - k
  {
    k < |text| && (text[k] == ']' || ClosesAfter(text, k + 1))
  }

  /** At index `q` stands '[', then at least one character other than ']', then ']'. */
  predicate BracketAt(text: string, q: nat) {
    q + 1 < |text| && text[q] == '[' && text[q + 1] != ']' && ClosesAfter(text, q + 2)
  }

  /** The lookahead \s*\[[^\]]+\] succeeds at index `j`. */
  predicate HeaderAt(text: string, j: nat)
    requires j <= |text|
  {
    BracketAt(text, SkipSpace(text, j))
  }

  /** The lookahead (?=\s*\[[^\]]+\]|$) succeeds at index `j`. */
  predicate BoundaryAt(text: string, j: nat)
    requires j <= |text|
  {
    j == |text| || HeaderAt(text, j)
  }

  /** Where the lazy group that starts at `p` ends: the least boundary at or after `p`. */
  function SectionEnd(text: string, p: nat): (e: nat)
    requires p <= |text|
    ensures p <= e <= |text|
    decreases |text| - p
  {
    if BoundaryAt(text, p) then p else SectionEnd(text, p + 1)
  }

  /** SectionEnd finds the least boundary at or after `p`. */
  lemma {:induction false} SectionEndLeast(text: string, p: nat)
    requires p <= |text|
    ensures BoundaryAt(text, SectionEnd(text, p))
    ensures forall j: nat | p <= j < SectionEnd(text, p) :: !BoundaryAt(text, j)
    decreases |text| - p
  {
    if !BoundaryAt(text, p) {
      SectionEndLeast(text, p + 1);
    }
  }

  /**
   * The group the pattern captures for `title`: the text after the first tag and
   * the whitespace that follows it, up to the next header or the end; "" when
   * the tag does not occur (the source then returns "" as well).
   */
  function Capture(text: string, title: string): (c: string)
    ensures FindTag(text, title, 0).None? ==> c == ""
  {
    match FindTag(text, title, 0)
    case None => ""
    case Some(i) =>
      var p := SkipSpace(text, i + |Tag(title)|);
      text[p..SectionEnd(text, p)]
  }

  /**
   * The capture after the first tag of `title` starts past the tag and all the
   * whitespace that follows it, and stops at the first place where a header
   * follows (after optional whitespace) or the text ends.
   */
  lemma CaptureSpec(text: string, title: string)
    requires FindTag(text, title, 0).Some?
    ensures var i := FindTag(text, title, 0).value;
      var p := SkipSpace(text, i + |Tag(title)|);
      var e := SectionEnd(text, p);
      Capture(text, title) == text[p..e] &&
      BoundaryAt(text, e) && forall j: nat | p <= j < e :: !BoundaryAt(text, j)
  {
    SectionEndLeast(text, SkipSpace(text, FindTag(text, title, 0).value + |Tag(title)|));
  }

  /**
   * The value extracted for one title: the trimmed capture, so "" when the
   * title does not occur or only whitespace follows its tag.
   */
  function Extract(text: string, title: string): (r: string)
    ensures IsTrimmed(r)
  {
    Trim(Capture(text, title))
  }

  /** parseAiSections_: the six labelled values of a generated text. Total: it never fails. */
  function ParseAiSections(text: string): (r: Sections)
    ensures IsTrimmed(r.summary) && IsTrimmed(r.health) && IsTrimmed(r.foods)
    ensures IsTrimmed(r.avoid) && IsTrimmed(r.productKeywords) && IsTrimmed(r.promo)
  {
    Sections(
      Extract(text, SummaryLabel),
      Extract(text, HealthLabel),
      Extract(text, FoodsLabel),
      Extract(text, AvoidLabel),
      Extract(text, KeywordsLabel),
      Extract(text, PromoLabel))
  }

  // ---------------------------------------------------------------------------
  // Small facts about the scanner's functions
  // ---------------------------------------------------------------------------

  lemma FindTagIs(text: string, title: string, i: nat)
    requires TagAt(text, i, title)
    requires forall k: nat | k < i :: !TagAt(text, k, title)
    ensures FindTag(text, title, 0) == Some(i)
  {
    FindTagFirst(text, title, 0);
  }

  /** A title whose tag does not occur yields "". */
  lemma ExtractAbsent(text: string, title: string)
    requires forall k: nat :: !TagAt(text, k, title)
    ensures Extract(text, title) == []
  {
    TrimOfTrimmed([]);
  }

  lemma SectionEndIs(text: string, p: nat, e: nat)
    requires p <= e <= |text| && BoundaryAt(text, e)
    requires forall j: nat | p <= j < e :: !BoundaryAt(text, j)
    ensures SectionEnd(text, p) == e
  {
    SectionEndLeast(text, p);
  }

  /** The value extracted when the first tag stands at `i`. */
  lemma ExtractFrom(text: string, title: string, i: nat)
    requires TagAt(text, i, title)
    requires forall k: nat | k < i :: !TagAt(text, k, title)
    ensures var p := SkipSpace(text, i + |Tag(title)|);
            Capture(text, title) == text[p..SectionEnd(text, p)]
  {
    FindTagIs(text, title, i);
  }

  lemma {:induction false} ClosesAfterWitness(text: string, k: nat, d: nat)
    requires k <= d < |text| && text[d] == ']'
    ensures ClosesAfter(text, k)
    decreases d - k
  {
    if k < d {
      ClosesAfterWitness(text, k + 1, d);
    }
  }

  lemma {:induction false} ClosesAfterSuffix(t: string, k: nat, x: nat)
    requires k <= |t|
    ensures ClosesAfter(t, k + x) <==> ClosesAfter(t[k..], x)
    decreases |t| - k - x
  {
    if k + x < |t| {
      assert t[k..][x] == t[k + x];
      ClosesAfterSuffix(t, k, x + 1);
    }
  }

  lemma {:induction false} ClosesAfterPrefix(t: string, m: nat, x: nat)
    requires m <= |t|
    ensures ClosesAfter(t[..m], x) ==> ClosesAfter(t, x)
    decreases m - x
  {
    if x < m {
      assert t[..m][x] == t[x];
      ClosesAfterPrefix(t, m, x + 1);
    }
  }

  /** BracketAt looks only at the text from its index on. */
  lemma BracketAtSuffix(t: string, k: nat, x: nat)
    requires k <= |t|
    ensures BracketAt(t, k + x) <==> BracketAt(t[k..], x)
  {
    ClosesAfterSuffix(t, k, x + 2);
    if k + x + 1 < |t| {
      assert t[k..][x] == t[k + x] && t[k..][x + 1] == t[k + x + 1];
    }
  }

  /** A bracket header inside a slice of `t` is a bracket header of `t`. */
  lemma BracketAtSlice(t: string, k: nat, m: nat, x: nat)
    requires k <= m <= |t|
    ensures BracketAt(t[k..m], x) ==> BracketAt(t, k + x)
  {
    assert t[k..m] == t[k..][..m - k];
    ClosesAfterPrefix(t[k..], m - k, x + 2);
    BracketAtSuffix(t[k..], 0, x);
    BracketAtSuffix(t, k, x);
    if x + 1 < m - k {
      assert t[k..m][x] == t[k..][x] && t[k..m][x + 1] == t[k..][x + 1];
    }
  }

  /** A bracket header is a header: no whitespace needs to be skipped before it. */
  lemma BracketIsHeader(text: string, j: nat)
    requires j <= |text|
    ensures BracketAt(text, j) ==> HeaderAt(text, j)
  {
    if BracketAt(text, j) {
      SkipSpaceIs(text, j, j);
    }
  }

  // ---------------------------------------------------------------------------
  // Properties of the extractor
  // ---------------------------------------------------------------------------

  /** From `j` on, a non-space character at `m` comes before any '[': no boundary at `j`. */
  lemma NoBoundaryBefore(text: string, j: nat, m: nat)
    requires j <= m < |text| && !IsSpace(text[m])
    requires forall k | j <= k <= m :: text[k] != '['
    ensures !BoundaryAt(text, j)
  {
    var q := SkipSpace(text, j);
    assert q <= m;
  }

  /**
   * Where a body ends: from `p`, characters other than '[' up to a non-space at
   * `m - 1`, then only whitespace up to `n1`, where a bracket header or the end
   * of the text follows. The group ends at `m`, or at the end of the text when
   * nothing follows the whitespace.
   */
  lemma BodyEnd(text: string, p: nat, m: nat, n1: nat)
    requires p <= m <= n1 <= |text|
    requires forall k | p <= k < m :: text[k] != '['
    requires p < m ==> !IsSpace(text[m - 1])
    requires forall k | m <= k < n1 :: IsSpace(text[k])
    requires n1 == |text| || BracketAt(text, n1)
    ensures SectionEnd(text, p) == if n1 == |text| then |text| else m
  {
    forall j: nat | p <= j < m ensures !BoundaryAt(text, j) {
      NoBoundaryBefore(text, j, m - 1);
    }
    if n1 == |text| {
      forall j: nat | m <= j < |text| ensures !BoundaryAt(text, j) {
        SkipSpaceIs(text, j, |text|);
      }
      SectionEndIs(text, p, |text|);
    } else {
      SkipSpaceIs(text, m, n1);
      BracketIsHeader(text, n1);
      SectionEndIs(text, p, m);
    }
  }

  /**
   * Scanning a body: when `text[n0..n1]` holds no '[' and is followed by a bracket
   * header or the end of the text, the group captured from `n0` on trims to the
   * trimmed body.
   */
  lemma ScanBody(text: string, n0: nat, n1: nat)
    requires n0 <= n1 <= |text|
    requires forall k | n0 <= k < n1 :: text[k] != '['
    requires n1 == |text| || BracketAt(text, n1)
    ensures var p := SkipSpace(text, n0); Trim(text[p..SectionEnd(text, p)]) == Trim(text[n0..n1])
  {
    var a := SkipSpace(text, n0);
    assert a <= n1 by {
      if n1 < |text| {
        assert text[n1] == '[' && !IsSpace('[');
      }
    }
    if a == n1 {
      TrimSlice(text, n0, n1, n1, n1);
      BodyEnd(text, n1, n1, n1);
      TrimSlice(text, n1, n1, n1, n1);
    } else {
      var b := SkipSpaceBack(text, n1);
      assert a < b;
      TrimSlice(text, n0, a, b, n1);
      BodyEnd(text, a, b, n1);
      TrimSlice(text, a, a, b, SectionEnd(text, a));
    }
  }

  /**
   * The value extracted when the first tag of `title` stands at `i` and is
   * followed by text without '[' up to `n1`, where a bracket header or the end
   * of the text follows: the trimmed text between the tag and `n1`.
   */
  lemma ExtractAt(text: string, title: string, i: nat, n1: nat)
    requires TagAt(text, i, title)
    requires forall k: nat | k < i :: !TagAt(text, k, title)
    requires i + |Tag(title)| <= n1 <= |text|
    requires forall k | i + |Tag(title)| <= k < n1 :: text[k] != '['
    requires n1 == |text| || BracketAt(text, n1)
    ensures Extract(text, title) == Trim(text[i + |Tag(title)|..n1])
  {
    var n0 := i + |Tag(title)|;
    var p := SkipSpace(text, n0);
    ExtractFrom(text, title, i);
    assert Capture(text, title) == text[p..SectionEnd(text, p)];
    ScanBody(text, n0, n1);
    assert Trim(text[p..SectionEnd(text, p)]) == Trim(text[n0..n1]);
    assert Extract(text, title) == Trim(Capture(text, title));
    assert Extract(text, title) == Trim(text[n0..n1]);
    assert text[n0..n1] == text[i + |Tag(title)|..n1];
  }

  /**
   * A title whose first tag is followed only by whitespace up to the next
   * header, or up to the end of the text, yields "".
   */
  lemma ExtractBlank(text: string, title: string, i: nat, j: nat)
    requires TagAt(text, i, title)
    requires forall k: nat | k < i :: !TagAt(text, k, title)
    requires i + |Tag(title)| <= j <= |text|
    requires forall k | i + |Tag(title)| <= k < j :: IsSpace(text[k])
    requires j == |text| || BracketAt(text, j)
    ensures Extract(text, title) == []
  {
    var n0 := i + |Tag(title)|;
    forall k | n0 <= k < j ensures text[k] != '[' {
      assert IsSpace(text[k]) && !IsSpace('[');
    }
    ExtractAt(text, title, i, j);
    TrimSlice(text, n0, j, j, j);
    assert Extract(text, title) == text[j..j];
  }

  /**
   * The content of one section: when the first tag of `title` is followed by a
   * body that contains no '[' and then by the next bracket header or the end of
   * the text, the extracted value is the trimmed body.
   */
  lemma ExtractSection(pre: string, title: string, body: string, rest: string)
    requires forall k: nat | k < |pre| :: !TagAt(pre + Tag(title) + body + rest, k, title)
    requires '[' !in body
    requires rest == [] || BracketAt(rest, 0)
    ensures Extract(pre + Tag(title) + body + rest, title) == Trim(body)
  {
    var text := pre + Tag(title) + body + rest;
    var n0 := |pre| + |Tag(title)|;
    var n1 := n0 + |body|;
    assert text[|pre|..n0] == Tag(title);
    assert text[n0..n1] == body;
    forall k | n0 <= k < n1 ensures text[k] != '[' {
      assert text[k] == body[k - n0];
    }
    assert text[n1..] == rest;
    BracketAtSuffix(text, n1, 0);
    ExtractAt(text, title, |pre|, n1);
  }

  /** The capture is a slice of the text inside which no boundary lies. */
  lemma CaptureSlice(text: string, title: string) returns (p: nat, e: nat)
    ensures p <= e <= |text| && Capture(text, title) == text[p..e]
    ensures forall j: nat | p <= j < e :: !BoundaryAt(text, j)
  {
    match FindTag(text, title, 0)
    case None =>
      p, e := 0, 0;
    case Some(i) =>
      assert i + |Tag(title)| <= |text|;
      p := SkipSpace(text, i + |Tag(title)|);
      e := SectionEnd(text, p);
      assert Capture(text, title) == text[p..e];
      SectionEndLeast(text, p);
  }

  /** No extracted value contains a bracket header: sections never run into each other. */
  lemma ExtractHasNoHeader(text: string, title: string)
    ensures forall x: nat | x < |Extract(text, title)| :: !BracketAt(Extract(text, title), x)
  {
    var p, e := CaptureSlice(text, title);
    var a, b := TrimOfSlice(text, p, e);
    var v := text[a..b];
    assert Extract(text, title) == v;
    forall x: nat | x < |v| ensures !BracketAt(v, x) {
      BracketAtSlice(text, a, b, x);
      BracketIsHeader(text, a + x);
      assert p <= a + x < e;
      assert !BoundaryAt(text, a + x);
    }
  }

  /** After a tag, a trimmed value without bracket headers runs to the end of the text. */
  lemma NoBoundaryInValue(t2: string, n0: nat)
    requires n0 < |t2| && IsTrimmed(t2[n0..])
    requires forall x: nat | x < |t2[n0..]| :: !BracketAt(t2[n0..], x)
    ensures SectionEnd(t2, n0) == |t2|
  {
    var v := t2[n0..];
    assert t2[|t2| - 1] == v[|v| - 1];
    forall j: nat | n0 <= j < |t2| ensures !BoundaryAt(t2, j) {
      var q := SkipSpace(t2, j);
      assert q < |t2|;
      BracketAtSuffix(t2, n0, q - n0);
    }
    SectionEndIs(t2, n0, |t2|);
  }

  /**
   * Re-parsing an extracted value wrapped in its own tag gives the same value.
   */
  lemma ExtractIdempotent(text: string, title: string)
    ensures Extract(Tag(title) + Extract(text, title), title) == Extract(text, title)
  {
    var v := Extract(text, title);
    var t2 := Tag(title) + v;
    var n0 := |Tag(title)|;
    assert t2[0..n0] == Tag(title);
    assert t2[n0..] == v;
    if v == [] {
      ExtractBlank(t2, title, 0, n0);
    } else {
      assert t2[n0] == v[0];
      SkipSpaceIs(t2, n0, n0);
      ExtractHasNoHeader(text, title);
      NoBoundaryInValue(t2, n0);
      ExtractFrom(t2, title, 0);
      assert Capture(t2, title) == v;
      TrimOfTrimmed(v);
      assert Extract(t2, title) == Trim(v);
    }
  }

  // ---------------------------------------------------------------------------
  // Whole documents: the six sections in any order
  // ---------------------------------------------------------------------------

  /** One labelled section of a generated text. */
  datatype Section = Section(title: string, body: string)

  /** The text of a sequence of sections, each written as its tag followed by its body. */
  function Render(secs: seq<Section>): string {
    if secs == [] then "" else Tag(secs[0].title) + secs[0].body + Render(secs[1..])
  }

  predicate BracketFree(s: string) {
    '[' !in s && ']' !in s
  }

  /** Labels are non-empty and bracket-free; bodies contain no '['. */
  predicate WellFormed(secs: seq<Section>) {
    forall i | 0 <= i < |secs| ::
      |secs[i].title| > 0 && BracketFree(secs[i].title) && '[' !in secs[i].body
  }

  /** Reference meaning of a document: the trimmed body of the first section with `title`, else "". */
  function Expected(secs: seq<Section>, title: string): string {
    if secs == [] then ""
    else if secs[0].title == title then Trim(secs[0].body)
    else Expected(secs[1..], title)
  }

  /** The tag of one bracket-free title is never found where the tag of another stands. */
  lemma TagMismatch(text: string, k: nat, l0: string, title: string)
    requires k + |Tag(l0)| <= |text| && text[k..k + |Tag(l0)|] == Tag(l0)
    requires BracketFree(l0) && BracketFree(title) && l0 != title
    ensures !TagAt(text, k, title)
  {
    var t0 := Tag(l0);
    if |title| < |l0| {
      assert text[k + 1 + |title|] == t0[1 + |title|] == l0[|title|];
      assert l0[|title|] in l0;
      assert Tag(title)[1 + |title|] == ']';
    } else if |title| > |l0| {
      assert text[k + 1 + |l0|] == t0[1 + |l0|] == ']';
      assert title[|l0|] in title;
      assert Tag(title)[1 + |l0|] == title[|l0|];
    } else {
      assert Tag(title)[1..1 + |title|] == title;
      assert t0[1..1 + |l0|] == l0;
    }
  }

  /** Inside one section of another title there is no occurrence of the tag of `title`. */
  lemma NoTagInSection(text: string, k0: nat, s: Section, title: string)
    requires k0 + |Tag(s.title)| + |s.body| <= |text|
    requires text[k0..k0 + |Tag(s.title)| + |s.body|] == Tag(s.title) + s.body
    requires BracketFree(s.title) && '[' !in s.body && BracketFree(title) && s.title != title
    ensures forall k: nat | k0 <= k < k0 + |Tag(s.title)| + |s.body| :: !TagAt(text, k, title)
  {
    var n := |Tag(s.title)|;
    var seg := Tag(s.title) + s.body;
    assert text[k0..k0 + n] == seg[..n] == Tag(s.title);
    TagMismatch(text, k0, s.title, title);
    forall k: nat | k0 < k < k0 + |seg| ensures !TagAt(text, k, title) {
      assert text[k] == seg[k - k0];
      if k - k0 < n - 1 {
        assert seg[k - k0] == s.title[k - k0 - 1];
        assert s.title[k - k0 - 1] in s.title;
      } else if k - k0 >= n {
        assert seg[k - k0] == s.body[k - k0 - n];
        assert s.body[k - k0 - n] in s.body;
      }
      if k + |Tag(title)| <= |text| {
        assert text[k..k + |Tag(title)|][0] == text[k];
      }
    }
  }

  /** A non-empty rendering starts with a bracket header. */
  lemma RenderStartsWithBracket(secs: seq<Section>)
    requires WellFormed(secs) && secs != []
    ensures BracketAt(Render(secs), 0)
  {
    var l := secs[0].title;
    var r := Render(secs);
    assert r[..|Tag(l)|] == Tag(l);
    assert r[1] == l[0];
    assert l[0] in l;
    assert r[|l| + 1] == Tag(l)[|l| + 1] == ']';
    ClosesAfterWitness(r, 2, |l| + 1);
  }

  /**
   * Extraction from a rendered document, after a prefix that holds no tag of
   * `title`, recovers the reference meaning of the document.
   */
  lemma {:induction false} ExtractRender(pre: string, secs: seq<Section>, title: string)
    requires WellFormed(secs) && BracketFree(title)
    requires NoTagBefore(pre + Render(secs), |pre|, title)
    ensures Extract(pre + Render(secs), title) == Expected(secs, title)
    decreases |secs|
  {
    if secs == [] {
      assert pre + Render(secs) == pre;
    } else {
      var s0 := secs[0];
      var tail := secs[1..];
      assert WellFormed(tail) by {
        forall i | 0 <= i < |tail| ensures |tail[i].title| > 0 && BracketFree(tail[i].title) && '[' !in tail[i].body {
          assert tail[i] == secs[i + 1];
        }
      }
      var text := pre + Render(secs);
      assert text == pre + Tag(s0.title) + s0.body + Render(tail);
      if s0.title == title {
        if tail != [] {
          RenderStartsWithBracket(tail);
        }
        ExtractSection(pre, title, s0.body, Render(tail));
      } else {
        var pre' := pre + Tag(s0.title) + s0.body;
        assert text == pre' + Render(tail);
        assert text[|pre|..|pre| + |Tag(s0.title)| + |s0.body|] == Tag(s0.title) + s0.body;
        NoTagInSection(text, |pre|, s0, title);
        ExtractRender(pre', tail, title);
      }
    }
  }

  /** No tag of `title` starts before index `n` of `text`. */
  predicate NoTagBefore(text: string, n: nat, title: string) {
    forall k: nat | k < n :: !TagAt(text, k, title)
  }

  /** No tag of any of the six labels starts before index `n` of `text`. */
  predicate NoLabelTagBefore(text: string, n: nat) {
    NoTagBefore(text, n, SummaryLabel) && NoTagBefore(text, n, HealthLabel) &&
    NoTagBefore(text, n, FoodsLabel) && NoTagBefore(text, n, AvoidLabel) &&
    NoTagBefore(text, n, KeywordsLabel) && NoTagBefore(text, n, PromoLabel)
  }

  /** No tag starts at a character other than '['. */
  lemma NoTagAtChar(text: string, k: nat, title: string)
    requires k < |text| && text[k] != '['
    ensures !TagAt(text, k, title)
  {
    if k + |Tag(title)| <= |text| {
      assert text[k..k + |Tag(title)|][0] == text[k];
    }
  }

  /** Text without '[' holds no tag, whatever follows it. */
  lemma NoTagInPreamble(pre: string, rest: string, title: string)
    requires '[' !in pre
    ensures NoTagBefore(pre + rest, |pre|, title)
  {
    var text := pre + rest;
    forall k: nat | k < |pre| ensures !TagAt(text, k, title) {
      assert text[k] == pre[k];
      NoTagAtChar(text, k, title);
    }
  }

  /** The six labels contain no square brackets. */
  lemma LabelsBracketFree()
    ensures BracketFree(SummaryLabel) && BracketFree(HealthLabel) && BracketFree(FoodsLabel)
    ensures BracketFree(AvoidLabel) && BracketFree(KeywordsLabel) && BracketFree(PromoLabel)
  {
  }

  /** One title of a document: a preamble holding no tag of the title, then well-formed sections. */
  lemma ExtractDocument(preamble: string, secs: seq<Section>, title: string)
    requires NoTagBefore(preamble + Render(secs), |preamble|, title)
    requires WellFormed(secs) && BracketFree(title)
    ensures Extract(preamble + Render(secs), title) == Expected(secs, title)
  {
    ExtractRender(preamble, secs, title);
  }

  /**
   * Parsing a document made of a preamble that holds no tag of the six labels,
   * followed by well-formed sections, yields for every label its reference
   * meaning.
   */
  lemma ParseDocument(preamble: string, secs: seq<Section>)
    requires NoLabelTagBefore(preamble + Render(secs), |preamble|) && WellFormed(secs)
    ensures ParseAiSections(preamble + Render(secs)) == Sections(
      Expected(secs, SummaryLabel), Expected(secs, HealthLabel), Expected(secs, FoodsLabel),
      Expected(secs, AvoidLabel), Expected(secs, KeywordsLabel), Expected(secs, PromoLabel))
  {
    LabelsBracketFree();
    ExtractDocument(preamble, secs, SummaryLabel);
    ExtractDocument(preamble, secs, HealthLabel);
    ExtractDocument(preamble, secs, FoodsLabel);
    ExtractDocument(preamble, secs, AvoidLabel);
    ExtractDocument(preamble, secs, KeywordsLabel);
    ExtractDocument(preamble, secs, PromoLabel);
  }

  /** A preamble without '[' holds no tag of the six labels. */
  lemma BracketFreePreamble(preamble: string, rest: string)
    requires '[' !in preamble
    ensures NoLabelTagBefore(preamble + rest, |preamble|)
  {
    NoTagInPreamble(preamble, rest, SummaryLabel);
    NoTagInPreamble(preamble, rest, HealthLabel);
    NoTagInPreamble(preamble, rest, FoodsLabel);
    NoTagInPreamble(preamble, rest, AvoidLabel);
    NoTagInPreamble(preamble, rest, KeywordsLabel);
    NoTagInPreamble(preamble, rest, PromoLabel);
  }

  /** With distinct labels the order of the sections does not matter: each title finds its own body. */
  lemma {:induction false} ExpectedDistinct(secs: seq<Section>, i: nat)
    requires i < |secs|
    requires forall a, b | 0 <= a < b < |secs| :: secs[a].title != secs[b].title
    ensures Expected(secs, secs[i].title) == Trim(secs[i].body)
  {
    if i > 0 {
      assert secs[0].title != secs[i].title;
      assert secs[1..][i - 1] == secs[i];
      ExpectedDistinct(secs[1..], i - 1);
    }
  }

  /** A title that no section carries has the empty meaning. */
  lemma {:induction false} ExpectedAbsent(secs: seq<Section>, title: string)
    requires forall i | 0 <= i < |secs| :: secs[i].title != title
    ensures Expected(secs, title) == []
  {
    if secs != [] {
      assert forall i | 0 <= i < |secs[1..]| :: secs[1..][i] == secs[i + 1];
      ExpectedAbsent(secs[1..], title);
    }
  }

  /** The bodies of the example reply trim to their text. */
  lemma ExampleBodies()
    ensures Trim("\n내용A\n") == "내용A" && Trim("\n내용B") == "내용B"
  {
    assert "\n" + "내용A" + "\n" == "\n내용A\n";
    TrimUnique("\n", "내용A", "\n");
    assert "\n" + "내용B" + "" == "\n내용B";
    TrimUnique("\n", "내용B", "");
  }

  /** The sections of the example reply are well formed. */
  lemma ExampleWellFormed(secs: seq<Section>)
    requires secs == [Section(SummaryLabel, "\n내용A\n"), Section(HealthLabel, "\n내용B")]
    ensures WellFormed(secs)
  {
    LabelsBracketFree();
  }

  /** The rendering of the example reply's sections. */
  lemma ExampleDocument(secs: seq<Section>)
    requires secs == [Section(SummaryLabel, "\n내용A\n"), Section(HealthLabel, "\n내용B")]
    ensures "" + Render(secs) == "[사주요약]\n내용A\n[건강주의]\n내용B"
  {
    var first := Tag(SummaryLabel) + "\n내용A\n";
    var second := Tag(HealthLabel) + "\n내용B";
    assert Render(secs[1..]) == second by {
      assert secs[1..][1..] == [];
    }
    assert first == "[사주요약]\n내용A\n";
    assert second == "[건강주의]\n내용B";
    assert Render(secs) == first + second;
    assert first + second == "[사주요약]\n내용A\n[건강주의]\n내용B";
  }

  /** The example of a two-section reply: a summary and health notes, the other four empty. */
  lemma TwoSectionExample()
    ensures ParseAiSections("[사주요약]\n내용A\n[건강주의]\n내용B")
         == Sections("내용A", "내용B", "", "", "", "")
  {
    var secs := [Section(SummaryLabel, "\n내용A\n"), Section(HealthLabel, "\n내용B")];
    ExampleWellFormed(secs);
    ExampleDocument(secs);
    ExpectedAbsent(secs, FoodsLabel);
    ExpectedAbsent(secs, AvoidLabel);
    ExpectedAbsent(secs, KeywordsLabel);
    ExpectedAbsent(secs, PromoLabel);
    ExampleBodies();
    BracketFreePreamble("", Render(secs));
    ParseDocument("", secs);
  }
}
