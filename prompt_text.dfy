/**
 * The fixed text of the request template of `buildSajuPrompt_`: the opening
 * sentences, the sentence that introduces the layout, and the instruction
 * under each section title. Each text is cut into pieces short enough for the
 * verifier to read character by character; none of them holds '['.
 */
module PromptText {
  const Opening1: string := "당신은 한국어로 답하는 '사주 기반 라이프스타일 안내' "
  const Opening2: string := "작성자입니다.\n"
  const Opening3: string := "아래 고객 입력을 바탕으로, 사주/오행을 "
  const Opening4: string := "\"재미+참고용\"으로만 해석해 주세요.\n"
  const Opening5: string := "의학적 진단/치료 표현은 금지하고, "
  const Opening6: string := "생활 습관/식습관 조언 수준으로만 작성하세요.\n\n"

  /** The three opening sentences and the blank line after them. */
  const Preface: string := Opening1 + Opening2 + Opening3 + Opening4 + Opening5 + Opening6

  const Layout1: string := "\n\n아래 섹션 제목을 정확히 사용하여 출력하세요. "
  const Layout2: string := "섹션 제목은 반드시 대괄호로 감싸주세요:\n\n"

  /** The sentence between the customer block and the requested layout. */
  const LayoutIntroduction: string := Layout1 + Layout2

  const SummaryInstruction: string := "\n5~7줄, 성향/강점/주의점 중심으로 작성\n\n"
  const HealthInstruction: string := "\n4~6줄, 생활습관 조언 중심(의학적 표현 금지)\n\n"
  const Foods1: string := "\n- 추천음식1: 이유\n- 추천음식2: 이유\n"
  const Foods2: string := "- 추천음식3: 이유\n- 추천음식4: 이유\n"
  const Foods3: string := "- 추천음식5: 이유\n\n"
  const AvoidInstruction: string := "\n- 음식1: 이유\n- 음식2: 이유\n- 음식3: 이유\n\n"
  const KeywordsInstruction: string := "\n키워드1, 키워드2, 키워드3\n\n"
  const Promo1: string := "\n2~3문장으로 추천 음식/상품을 자연스럽게 안내"
  const Promo2: string := "(이모지/특수문자/해시태그 없이)"

  /** The instruction the request gives as the body of each section. */
  const Instructions: seq<string> := [
    SummaryInstruction, HealthInstruction, Foods1 + Foods2 + Foods3,
    AvoidInstruction, KeywordsInstruction, Promo1 + Promo2]

  /** The opening sentences hold no '['. */
  lemma OpeningBracketFree()
    ensures '[' !in Opening1 && '[' !in Opening2 && '[' !in Opening3
  {
  }

  lemma ClosingBracketFree()
    ensures '[' !in Opening4 && '[' !in Opening5 && '[' !in Opening6
  {
  }

  lemma LayoutBracketFree()
    ensures '[' !in Layout1 && '[' !in Layout2
  {
  }

  /** The fixed texts around the customer block hold no '['. */
  lemma FixedTextsBracketFree()
    ensures '[' !in Preface && '[' !in LayoutIntroduction
  {
    OpeningBracketFree();
    ClosingBracketFree();
    LayoutBracketFree();
  }

  lemma FoodsBracketFree()
    ensures '[' !in Foods1 && '[' !in Foods2 && '[' !in Foods3
  {
  }

  lemma PromoBracketFree()
    ensures '[' !in Promo1 && '[' !in Promo2
  {
  }

  lemma FirstLinesBracketFree()
    ensures '[' !in SummaryInstruction && '[' !in HealthInstruction
  {
  }

  lemma LastLinesBracketFree()
    ensures '[' !in AvoidInstruction && '[' !in KeywordsInstruction
  {
  }

  /** The six instructions hold no '['. */
  lemma InstructionsBracketFree()
    ensures forall i | 0 <= i < 6 :: '[' !in Instructions[i]
  {
    FoodsBracketFree();
    PromoBracketFree();
    FirstLinesBracketFree();
    LastLinesBracketFree();
  }
}
