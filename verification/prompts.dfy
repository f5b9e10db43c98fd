/** `build_prompt`: the fixed instructions, the stripped review and a closing line. */
module Prompts {
  import opened Wrappers
  import opened Text

  /** The triple-quoted instruction literal as written, line breaks at both ends
      included. */
  const RawSystemPrompt: string := @"
You are a careful, detail-oriented business analyst.

Your task is to classify 1-star customer reviews for food delivery apps
(e.g., Uber Eats, Bolt Food, Grubhub, DoorDash) into one or more ISSUE TYPES.

Each review may mention ZERO, ONE, or MULTIPLE issues. 
Read the ENTIRE review carefully before assigning labels.

You must ONLY use these EXACT labels (all caps):

- DELIVERY
- ORDER_ACCURACY
- FOOD_QUALITY
- PAYMENT
- APP_TECH
- CUSTOMER_SUPPORT

DEFINITIONS (read carefully):

1) DELIVERY
   - Problems with the delivery itself.
   - Examples: late delivery, very long wait, driver never arrived, driver cancelled,
     driver went to wrong address, food left in wrong place, rude driver behavior.
   - Includes comments about tracking not updating if the underlying issue is about 
     the delivery process being too slow or broken.

2) ORDER_ACCURACY
   - Problems with what was delivered vs what was ordered.
   - Examples: missing items, wrong items, wrong toppings/sides, wrong size,
     another customer’s order, incorrect customization.
   - Focus: the CONTENTS of the order do not match what the customer ordered.

3) FOOD_QUALITY
   - Problems with the quality or condition of the food.
   - Examples: cold food, stale, soggy, undercooked, overcooked, burnt, spoiled,
     spilled in the bag, looks disgusting, tastes bad.
   - Even if the order was accurate, if the quality was bad → FOOD_QUALITY.

4) PAYMENT
   - Problems with charges, refunds, discounts, promos, or billing.
   - Examples: double charge, charged without getting the order, refund never arrived,
     wrong amount charged, promo code not applied, subscription/fee issues,
     problems with in-app wallet or payment method.
   - If the main issue is money/charges → PAYMENT.

5) APP_TECH
   - Technical problems with the app or website itself.
   - Examples: app crashes, can’t log in, can’t place order, error messages,
     spinning/loading forever, map not working, buttons not responding.
   - Purely technical failures, not just “bad design”.

6) CUSTOMER_SUPPORT
   - Problems with support or help channels (chat, email, phone, in-app support).
   - Examples: no reply, very slow reply, unhelpful or rude agent, denial of clear issue,
     automated responses that do not solve the problem, “they did nothing”.

GENERAL RULES:

- Multi-label is ALLOWED:
  A review can have more than one label (e.g., DELIVERY + FOOD_QUALITY).
- If a review clearly contains multiple issues, include ALL relevant labels.
- If nothing clearly matches any definition, return an empty array [].

OUTPUT FORMAT (IMPORTANT):

1) Always return ONLY a JSON array of label strings, e.g.:
   [""DELIVERY"", ""FOOD_QUALITY""]
   [""PAYMENT""]
   []

2) Do NOT include any explanation, reasons, or extra text.
3) Do NOT invent new labels. Use ONLY:
   ""DELIVERY"", ""ORDER_ACCURACY"", ""FOOD_QUALITY"", ""PAYMENT"", ""APP_TECH"", ""CUSTOMER_SUPPORT"".
"

  /** `SYSTEM_PROMPT`: the literal with surrounding whitespace stripped. */
  const SystemPrompt: string := Strip(RawSystemPrompt)

  const ReviewHeader: string := "\n\nReview:\n"
  const Closing: string := "\n\nReturn ONLY the JSON array now."

  /** `SYSTEM_PROMPT` has no whitespace at either end. */
  lemma SystemPromptIsStripped()
    ensures IsStripped(SystemPrompt)
  {
  }

  /** `(review or "")`: a missing review reads as the empty string. */
  function ReviewText(review: Option<string>): string {
    review.GetOr("")
  }

  /** The prompt `build_prompt` assembles around `instructions`; the source always
      passes `SYSTEM_PROMPT` (see `BuildPrompt`). */
  function PromptWith(instructions: string, review: Option<string>): (p: string)
    ensures StartsWith(p, instructions + ReviewHeader)
    ensures EndsWith(p, Closing)
    ensures |p| == |instructions| + |ReviewHeader| + |Strip(ReviewText(review))| + |Closing|
  {
    var p := instructions + ReviewHeader + Strip(ReviewText(review)) + Closing;
    assert p[..|instructions + ReviewHeader|] == instructions + ReviewHeader;
    p
  }

  /** `build_prompt(review)`. */
  function BuildPrompt(review: Option<string>): (p: string)
    ensures StartsWith(p, SystemPrompt + ReviewHeader)
    ensures EndsWith(p, Closing)
  {
    PromptWith(SystemPrompt, review)
  }

  /** The review part of a prompt: what lies between the header that follows the
      instructions and the closing line. */
  function ReviewPart(p: string, instructions: string): string
    requires |instructions| + |ReviewHeader| + |Closing| <= |p|
  {
    p[|instructions| + |ReviewHeader|..|p| - |Closing|]
  }

  /** Taking the fixed prefix and suffix off a prompt gives back the stripped review. */
  lemma PromptRoundTrip(instructions: string, review: Option<string>)
    ensures ReviewPart(PromptWith(instructions, review), instructions) == Strip(ReviewText(review))
  {
    var r := Strip(ReviewText(review));
    var p := PromptWith(instructions, review);
    assert p == (instructions + ReviewHeader) + r + Closing;
  }

  /** Two reviews give the same prompt exactly when they agree once stripped. */
  lemma PromptDeterminedByStrippedReview(instructions: string, a: Option<string>, b: Option<string>)
    ensures PromptWith(instructions, a) == PromptWith(instructions, b) <==>
      Strip(ReviewText(a)) == Strip(ReviewText(b))
  {
    PromptRoundTrip(instructions, a);
    PromptRoundTrip(instructions, b);
  }

  /** `build_prompt`'s own round trip, for the instructions it uses. */
  lemma BuildPromptRoundTrip(review: Option<string>)
    ensures ReviewPart(BuildPrompt(review), SystemPrompt) == Strip(ReviewText(review))
    ensures IsStripped(ReviewPart(BuildPrompt(review), SystemPrompt))
  {
    PromptRoundTrip(SystemPrompt, review);
  }
}
