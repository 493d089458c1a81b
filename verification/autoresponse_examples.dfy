/** Worked examples of the reply engine on concrete texts. */
module AutoResponseExamples {
  import opened Text
  import opened AutoResponse

  lemma OptOutExample()
    ensures !ShouldAutoRespond("STOP")
  {
    assert ToLower("STOP") == "stop";
    assert OptOutPrefixes[0] <= "stop";
  }

  lemma AcknowledgementExample()
    ensures !ShouldAutoRespond("Okay")
  {
    assert ToLower("Okay") == "okay";
  }

  /** `shouldAutoRespond` does not trim: a leading space defeats the opt-out. */
  lemma LeadingSpaceExample()
    ensures ShouldAutoRespond(" stop")
  {
    assert ToLower(" stop") == " stop";
    PrefixesAbsent(" stop", OptOutPrefixes);
  }

  /** An acknowledgement followed by more text is answered. */
  lemma LongerAcknowledgementExample()
    ensures ShouldAutoRespond("ok thanks")
  {
    assert ToLower("ok thanks") == "ok thanks";
    PrefixesAbsent("ok thanks", OptOutPrefixes);
  }

  lemma GreetingExampleText(s: string)
    requires s == "Hi there"
    ensures Normalize(s) == "hi there"
  {
    LowerCaseOf(s, "hi there");
    assert Trim("hi there") == "hi there";
  }

  lemma GreetingExample(n: nat)
    ensures GenerateAIResponse("Hi there", n).message == GreetingReply
  {
    GreetingExampleText("Hi there");
    assert GreetingPrefixes[0] <= "hi there";
  }

  /** A greeting prefix wins over every later keyword: "high" starts with "hi". */
  lemma GreetingBeatsPriceExample(n: nat)
    ensures GenerateAIResponse("high price", n).message == GreetingReply
  {
    HighPriceNormalized("high price");
    HighPriceGreets("high price");
  }

  /** `high price` is already lower-case and trimmed, so normalising keeps
      it. Lower-casing and trimming are shown in separate lemmas, one
      literal unfolding each, so that each proof stays small. */
  lemma HighPriceNormalized(s: string)
    requires s == "high price"
    ensures Normalize(s) == s
  {
    HighPriceLower(s);
    HighPriceTrimmed(s);
  }

  /** `high price` starts with the first greeting prefix, `hi`. */
  lemma HighPriceGreets(s: string)
    requires s == "high price"
    ensures StartsWithAny(s, GreetingPrefixes)
  {
    assert GreetingPrefixes[0] <= s;
  }

  /** `high price` has no upper-case letter. */
  lemma HighPriceLower(s: string)
    requires s == "high price"
    ensures ToLower(s) == s
  {
    LowerCaseOf(s, "high price");
  }

  /** `high price` has no surrounding whitespace. */
  lemma HighPriceTrimmed(s: string)
    requires s == "high price"
    ensures Trim(s) == s
  {
  }

  /** Every greeting prefix starts with `h` or `g`, so text starting with
      another letter is not a greeting. */
  lemma GreetingInitials()
    ensures forall i :: 0 <= i < |GreetingPrefixes| ==>
              |GreetingPrefixes[i]| > 0 && (GreetingPrefixes[i][0] == 'h' || GreetingPrefixes[i][0] == 'g')
  {
  }

  /** Normalised text on which neither the greeting nor the property rule
      fires, and the bedroom rule does, is answered by `BedroomAnswer`. */
  lemma BedroomRuleAnswers(incoming: string, n: nat)
    requires Normalize(incoming) == incoming
    requires !StartsWithAny(incoming, GreetingPrefixes) && !ContainsAny(incoming, PropertyKeywords)
    requires DigitThenWord(incoming, BedroomWords)
    ensures GenerateAIResponse(incoming, n).message == BedroomAnswer(incoming)
  {
  }

  /** The greeting and property rules do not fire on text that starts with
      neither 'h' nor 'g' and in which each property keyword lacks a
      character: `missing[w]` is the position of one in keyword `w`. */
  lemma NoGreetingNoProperty(s: string, missing: seq<nat>)
    requires |s| > 0 && s[0] != 'h' && s[0] != 'g'
    requires |missing| == |PropertyKeywords|
    requires forall w :: 0 <= w < |PropertyKeywords| ==>
               missing[w] < |PropertyKeywords[w]| && PropertyKeywords[w][missing[w]] !in s
    ensures !StartsWithAny(s, GreetingPrefixes) && !ContainsAny(s, PropertyKeywords)
  {
    GreetingInitials();
    PrefixesAbsent(s, GreetingPrefixes);
    KeywordsAbsent(s, PropertyKeywords, missing);
  }

  lemma BedroomPatternAt(s: string, i: nat, j: nat, k: nat)
    requires RegexMatchAt(s, BedroomWords, i, j, k)
    ensures DigitThenWord(s, BedroomWords)
  {
    UnitWordsStartWithLetters();
    DigitThenWordComplete(s, BedroomWords, i, j, k);
  }

  // Each example text below reaches the general lemmas through a variable
  // constrained to equal it, which keeps the verifier from unfolding every
  // pattern over the literal.

  lemma ThreeBedroomRules(s: string)
    requires s == "looking for 3 bedroom"
    ensures !StartsWithAny(s, GreetingPrefixes) && !ContainsAny(s, PropertyKeywords)
  {
    NoGreetingNoProperty(s, [0, 0, 0, 2, 0, 0, 0]);
  }

  lemma ThreeBedroomPattern(s: string)
    requires s == "looking for 3 bedroom"
    ensures DigitThenWord(s, BedroomWords)
  {
    assert s[12..13] == "3" && s[13..14] == " ";
    assert BedroomWords[0] <= s[14..];
    BedroomPatternAt(s, 12, 13, 14);
  }

  lemma TwoBathsRules(s: string)
    requires s == "2 baths 3 bed"
    ensures !StartsWithAny(s, GreetingPrefixes) && !ContainsAny(s, PropertyKeywords)
  {
    NoGreetingNoProperty(s, [0, 1, 1, 0, 1, 0, 0]);
  }

  lemma TwoBathsPattern(s: string)
    requires s == "2 baths 3 bed"
    ensures DigitThenWord(s, BedroomWords)
  {
    assert s[8..9] == "3" && s[9..10] == " ";
    assert BedroomWords[0] <= s[10..];
    BedroomPatternAt(s, 8, 9, 10);
  }

  lemma ZeroBedRules(s: string)
    requires s == "0 bed"
    ensures !StartsWithAny(s, GreetingPrefixes) && !ContainsAny(s, PropertyKeywords)
  {
    NoGreetingNoProperty(s, [0, 0, 0, 0, 0, 0, 0]);
  }

  lemma ZeroBedPattern(s: string)
    requires s == "0 bed"
    ensures DigitThenWord(s, BedroomWords)
  {
    assert s[0..1] == "0" && s[1..2] == " ";
    assert BedroomWords[0] <= s[2..];
    BedroomPatternAt(s, 0, 1, 2);
  }

  /** Normalised text on which neither the greeting nor the property rule
      fires, and the bedroom rule does, gets the bedroom answer. */
  lemma ThreeBedroomAnswered(n: nat)
    ensures GenerateAIResponse("looking for 3 bedroom", n).message == BedroomAnswer("looking for 3 bedroom")
  {
    NormalizedText("looking for 3 bedroom");
    ThreeBedroomRules("looking for 3 bedroom");
    ThreeBedroomPattern("looking for 3 bedroom");
    BedroomRuleAnswers("looking for 3 bedroom", n);
  }

  lemma BedroomExample(n: nat)
    ensures GenerateAIResponse("looking for 3 bedroom", n).message == BedroomCountReply(3)
  {
    ThreeBedroomAnswered(n);
    ThreeBedroomCount();
  }

  lemma ThreeBedroomCount()
    ensures BedroomAnswer("looking for 3 bedroom") == BedroomCountReply(3)
  {
    ThreeBedroomRun("looking for 3 bedroom");
    assert ParseDecimal("3") == 3;
  }

  lemma ThreeBedroomRun(s: string)
    requires s == "looking for 3 bedroom"
    ensures FirstDigitRun(s) == "3"
  {
    FirstDigitRunAt(s, 12);
    assert TakeDigits(s[12..]) == "3";
  }

  lemma TwoBathsAnswered(n: nat)
    ensures GenerateAIResponse("2 baths 3 bed", n).message == BedroomAnswer("2 baths 3 bed")
  {
    NormalizedText("2 baths 3 bed");
    TwoBathsRules("2 baths 3 bed");
    TwoBathsPattern("2 baths 3 bed");
    BedroomRuleAnswers("2 baths 3 bed", n);
  }

  /** The echoed count is the first number in the text, not the one before
      "bed": "2 baths 3 bed" is answered with 2 bedrooms. */
  lemma FirstNumberEchoedExample(n: nat)
    ensures GenerateAIResponse("2 baths 3 bed", n).message == BedroomCountReply(2)
  {
    TwoBathsAnswered(n);
    TwoBathsCount();
  }

  lemma TwoBathsCount()
    ensures BedroomAnswer("2 baths 3 bed") == BedroomCountReply(2)
  {
    assert FirstDigitRun("2 baths 3 bed") == "2";
    assert ParseDecimal("2") == 2;
  }

  lemma ZeroBedAnswered(n: nat)
    ensures GenerateAIResponse("0 bed", n).message == BedroomAnswer("0 bed")
  {
    NormalizedText("0 bed");
    ZeroBedRules("0 bed");
    ZeroBedPattern("0 bed");
    BedroomRuleAnswers("0 bed", n);
  }

  /** A count that parses to zero falls back to asking for the count. */
  lemma ZeroBedroomsExample(n: nat)
    ensures GenerateAIResponse("0 bed", n).message == BedroomPrompt
  {
    ZeroBedAnswered(n);
    ZeroBedCount();
  }

  lemma ZeroBedCount()
    ensures BedroomAnswer("0 bed") == BedroomPrompt
  {
    assert FirstDigitRun("0 bed") == "0";
  }
}
