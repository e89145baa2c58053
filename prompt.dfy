/**
 * The request text sent to the text generator (`buildSajuPrompt_`): a fixed
 * introduction, the customer's data with placeholders for the optional fields,
 * and the answer layout, which asks for the six bracketed sections that the
 * section extractor reads back.
 */
module Prompt {
  import opened Text
  import opened SectionParser
  import opened PromptText

  /** The six values of a record that the request text shows, as read from the sheet. */
  datatype PromptInput = PromptInput(
    name: string,
    birthdate: string,
    birthtime: string,
    calendarType: string,
    gender: string,
    memo: string)

  const NoBirthtime: string := "(미입력)"
  const NoMemo: string := "(없음)"

  /** The birthdate as shown: trimmed, without the leading apostrophe that marks it as text in the sheet. */
  function BirthdateText(v: string): (r: string)
    ensures |r| <= |v|
    ensures Trim(v) != [] && Trim(v)[0] == '\'' ==> r == Trim(v)[1..]
    ensures !(Trim(v) != [] && Trim(v)[0] == '\'') ==> r == Trim(v)
  {
    StripApostrophe(Trim(v))
  }

  /** The birth time as shown: trimmed, or the placeholder (미입력) when blank. */
  function BirthtimeText(v: string): (r: string)
    ensures r != []
    ensures Trim(v) != [] ==> r == Trim(v)
    ensures Trim(v) == [] ==> r == NoBirthtime
  {
    var bt := Trim(v);
    if bt == "" then NoBirthtime else bt
  }

  /** The memo as shown: as stored, or the placeholder (없음) when empty. */
  function MemoText(v: string): (r: string)
    ensures r != []
    ensures v != [] ==> r == v
    ensures v == [] ==> r == NoMemo
  {
    if v == "" then NoMemo else v
  }

  /** The heading of the customer block, itself written in square brackets. */
  const CustomerHeading: string := "고객 입력"

  /** The section titles the request asks for, in the order it lists them. */
  const LayoutLabels: seq<string> :=
    [SummaryLabel, HealthLabel, FoodsLabel, AvoidLabel, KeywordsLabel, PromoLabel]

  /** A text in the requested layout: the six titles, each followed by its own body. */
  function InLayout(bodies: seq<string>): (secs: seq<Section>)
    requires |bodies| == 6
    ensures |secs| == 6
    ensures forall i | 0 <= i < 6 :: secs[i] == Section(LayoutLabels[i], bodies[i])
  {
    seq(6, i requires 0 <= i < 6 => Section(LayoutLabels[i], bodies[i]))
  }

  /** None of the six values holds '['. */
  predicate BracketFreeInput(d: PromptInput) {
    '[' !in d.name && '[' !in d.birthdate && '[' !in d.birthtime &&
    '[' !in d.calendarType && '[' !in d.gender && '[' !in d.memo
  }

  /**
   * The customer block: one line per field, optional fields shown by their
   * placeholders when blank. Values without '[' cannot put one into it.
   */
  function CustomerBlock(d: PromptInput): (r: string)
    ensures BracketFreeInput(d) ==> '[' !in r
  {
    var name, bd, bt, memo := d.name, BirthdateText(d.birthdate), BirthtimeText(d.birthtime), MemoText(d.memo);
    if BracketFreeInput(d) then
      TrimKeeps(d.birthdate);
      TrimKeeps(d.birthtime);
      LinesBracketFree(name, bd, bt, d.calendarType, d.gender, memo);
      CustomerLines(name, bd, bt, d.calendarType, d.gender, memo)
    else
      CustomerLines(name, bd, bt, d.calendarType, d.gender, memo)
  }

  /** The six lines of the customer block, given the values as shown. */
  function CustomerLines(name: string, birthdate: string, birthtime: string,
                         calendarType: string, gender: string, memo: string): string
  {
    "- 이름: " + name
    + "\n- 생년월일: " + birthdate
    + "\n- 출생시간: " + birthtime
    + "\n- 음양력: " + calendarType
    + "\n- 성별: " + gender
    + "\n- 메모: " + memo
  }

  /** buildSajuPrompt_: the complete request text for one record. */
  function BuildSajuPrompt(d: PromptInput): string {
    Preface + Tag(CustomerHeading) + AfterHeading(d) + Render(InLayout(Instructions))
  }

  /** What follows the heading of the customer block up to the requested layout. */
  function AfterHeading(d: PromptInput): string {
    "\n" + CustomerBlock(d) + LayoutIntroduction
  }

  // ---------------------------------------------------------------------------
  // Properties of the request text
  // ---------------------------------------------------------------------------

  /** Trimming, and removing the apostrophe, keep only characters of the value. */
  lemma TrimKeeps(v: string)
    requires '[' !in v
    ensures '[' !in BirthdateText(v) && '[' !in BirthtimeText(v)
  {
    TrimParts(v);
  }

  /** Lines made of values without '[' hold no '['. */
  lemma LinesBracketFree(name: string, birthdate: string, birthtime: string,
                         calendarType: string, gender: string, memo: string)
    requires '[' !in name && '[' !in birthdate && '[' !in birthtime
    requires '[' !in calendarType && '[' !in gender && '[' !in memo
    ensures '[' !in CustomerLines(name, birthdate, birthtime, calendarType, gender, memo)
  {
  }

  /** The heading of the customer block is bracket-free and none of the six titles. */
  lemma CustomerHeadingDistinct()
    ensures BracketFree(CustomerHeading)
    ensures forall i | 0 <= i < 6 :: LayoutLabels[i] != CustomerHeading
  {
  }

  /**
   * A text made of bracket-free parts around one heading in brackets holds no
   * tag of another bracket-free title before its end.
   */
  lemma NoTagAroundHeading(a: string, heading: string, b: string, rest: string, title: string)
    requires '[' !in a && '[' !in b && BracketFree(heading)
    requires BracketFree(title) && heading != title
    ensures NoTagBefore(a + Tag(heading) + b + rest, |a + Tag(heading) + b|, title)
  {
    var text := a + Tag(heading) + b + rest;
    var n := |Tag(heading)|;
    forall k: nat | k < |a + Tag(heading) + b| ensures !TagAt(text, k, title) {
      if k < |a| {
        assert text[k] == a[k];
        NoTagAtChar(text, k, title);
      } else if k == |a| {
        assert text[k..k + n] == Tag(heading);
        TagMismatch(text, k, heading, title);
      } else if k < |a| + n {
        assert text[k] == Tag(heading)[k - |a|];
        if k < |a| + n - 1 {
          assert text[k] == heading[k - |a| - 1];
          assert heading[k - |a| - 1] in heading;
        }
        NoTagAtChar(text, k, title);
      } else {
        assert text[k] == b[k - |a| - n];
        NoTagAtChar(text, k, title);
      }
    }
  }

  /**
   * The preamble of the request, a bracket-free text around the heading of
   * the customer block, holds no tag of the six titles.
   */
  lemma PreambleHoldsNoLabel(b: string, rest: string)
    requires '[' !in b
    ensures NoLabelTagBefore(Preface + Tag(CustomerHeading) + b + rest, |Preface + Tag(CustomerHeading) + b|)
  {
    FixedTextsBracketFree();
    CustomerHeadingDistinct();
    LabelsBracketFree();
    NoTagAroundHeading(Preface, CustomerHeading, b, rest, SummaryLabel);
    NoTagAroundHeading(Preface, CustomerHeading, b, rest, HealthLabel);
    NoTagAroundHeading(Preface, CustomerHeading, b, rest, FoodsLabel);
    NoTagAroundHeading(Preface, CustomerHeading, b, rest, AvoidLabel);
    NoTagAroundHeading(Preface, CustomerHeading, b, rest, KeywordsLabel);
    NoTagAroundHeading(Preface, CustomerHeading, b, rest, PromoLabel);
  }

  /**
   * The request text for values without '[', read by the section extractor,
   * gives the six instructions, trimmed: the request asks for exactly the
   * bracketed titles the extractor reads back, and the heading of the customer
   * block is none of them.
   */
  lemma PromptLayoutParses(d: PromptInput)
    requires BracketFreeInput(d)
    ensures ParseAiSections(BuildSajuPrompt(d)) == Sections(
      Trim(Instructions[0]), Trim(Instructions[1]), Trim(Instructions[2]),
      Trim(Instructions[3]), Trim(Instructions[4]), Trim(Instructions[5]))
  {
    FixedTextsBracketFree();
    InstructionsBracketFree();
    var b := AfterHeading(d);
    var pre := Preface + Tag(CustomerHeading) + b;
    var rest := Render(InLayout(Instructions));
    PreambleHoldsNoLabel(b, rest);
    LayoutAfterPreamble(pre, Instructions);
  }

  /**
   * The birthdate written to the sheet, "'" followed by the trimmed date, is
   * shown as the date itself.
   */
  lemma StoredBirthdateShown(bd: string)
    requires IsTrimmed(bd)
    ensures BirthdateText("'" + bd) == bd
  {
    assert IsTrimmed("'" + bd) by {
      if bd != [] {
        assert ("'" + bd)[|"'" + bd| - 1] == bd[|bd| - 1];
      }
    }
    TrimOfTrimmed("'" + bd);
    assert ("'" + bd)[1..] == bd;
  }

  /** The six titles are bracket-free and pairwise different. */
  lemma LayoutLabelsDistinct()
    ensures forall i | 0 <= i < 6 :: |LayoutLabels[i]| > 0 && BracketFree(LayoutLabels[i])
    ensures forall a, b | 0 <= a < b < 6 :: LayoutLabels[a] != LayoutLabels[b]
  {
    LabelsBracketFree();
  }

  /** A text in the layout with bodies free of '[' is a well-formed document of distinct titles. */
  lemma InLayoutWellFormed(bodies: seq<string>)
    requires |bodies| == 6 && forall i | 0 <= i < 6 :: '[' !in bodies[i]
    ensures WellFormed(InLayout(bodies))
    ensures forall a, b | 0 <= a < b < 6 :: InLayout(bodies)[a].title != InLayout(bodies)[b].title
  {
    LayoutLabelsDistinct();
  }

  /**
   * A text in the layout, with bodies free of '[', after a preamble holding no
   * tag of the six titles, parses into the six trimmed bodies.
   */
  lemma LayoutAfterPreamble(pre: string, bodies: seq<string>)
    requires |bodies| == 6 && forall i | 0 <= i < 6 :: '[' !in bodies[i]
    requires NoLabelTagBefore(pre + Render(InLayout(bodies)), |pre|)
    ensures ParseAiSections(pre + Render(InLayout(bodies))) == Sections(
      Trim(bodies[0]), Trim(bodies[1]), Trim(bodies[2]), Trim(bodies[3]), Trim(bodies[4]), Trim(bodies[5]))
  {
    var secs := InLayout(bodies);
    InLayoutWellFormed(bodies);
    ParseDocument(pre, secs);
    forall i | 0 <= i < 6 ensures Expected(secs, LayoutLabels[i]) == Trim(bodies[i]) {
      ExpectedDistinct(secs, i);
    }
  }

  /**
   * A reply that follows the requested layout, with bodies free of '[', parses
   * into the six trimmed bodies: the request asks for exactly the titles the
   * extractor reads back, and in an order it does not depend on.
   */
  lemma LayoutReplyParses(bodies: seq<string>)
    requires |bodies| == 6 && forall i | 0 <= i < 6 :: '[' !in bodies[i]
    ensures ParseAiSections(Render(InLayout(bodies))) == Sections(
      Trim(bodies[0]), Trim(bodies[1]), Trim(bodies[2]), Trim(bodies[3]), Trim(bodies[4]), Trim(bodies[5]))
  {
    var rest := Render(InLayout(bodies));
    assert "" + rest == rest;
    BracketFreePreamble("", rest);
    LayoutAfterPreamble("", bodies);
  }
}
