/** The rule-based reply engine: `shouldAutoRespond` decides whether an
    inbound text gets a reply at all, and `generateAIResponse` picks the reply
    by trying an ordered list of patterns, first match wins. Each regular
    expression of the source is an explicit predicate here. */
module AutoResponse {
  import opened Text

  const GreetingPrefixes: seq<string> := ["hi", "hello", "hey", "good morning", "good afternoon", "good evening"]
  const PropertyKeywords: seq<string> := ["property", "house", "home", "listing", "available", "price", "cost"]
  const BedroomWords: seq<string> := ["bed", "bedroom", "br"]
  const PriceUnits: seq<string> := ["k", "thousand", "million"]
  const ContactKeywords: seq<string> := ["contact", "call", "speak", "talk", "agent", "realtor"]
  const GratitudeKeywords: seq<string> := ["thank", "thanks", "appreciate"]
  const OptOutPrefixes: seq<string> := ["stop", "unsubscribe", "cancel", "no more"]
  const Acknowledgements: seq<string> := ["yes", "yep", "ok", "okay", "sure"]

  // ---------------------------------------------------------------------------
  // Patterns

  /** `^(w1|w2|...)`: the text starts with one of the words. */
  predicate StartsWithAny(s: string, words: seq<string>) {
    exists i :: 0 <= i < |words| && words[i] <= s
  }

  /** `(w1|w2|...)` without anchors: one of the words occurs in the text. */
  predicate ContainsAny(s: string, words: seq<string>) {
    exists i :: 0 <= i < |words| && Contains(s, words[i])
  }

  /** `\d+\s*(w1|w2|...)` without anchors: some digit, then optional
      whitespace, then one of the words. A digit run can always be shortened
      to its last digit, and the whitespace skip is greedy because no word
      starts with whitespace, so this scan decides the regular expression
      (`DigitThenWordIff`). */
  predicate DigitThenWord(s: string, words: seq<string>)
    decreases |s|
  {
    |s| > 0 && ((IsDigit(s[0]) && StartsWithAny(TrimStart(s[1..]), words)) || DigitThenWord(s[1..], words))
  }

  /** `\$\d+` without anchors: a dollar sign directly followed by a digit. */
  predicate DollarAmount(s: string)
    decreases |s|
  {
    |s| >= 2 && ((s[0] == '$' && IsDigit(s[1])) || DollarAmount(s[1..]))
  }

  /** A match of `\d+\s*(w1|w2|...)` spanning digits `s[i..j]`, whitespace
      `s[j..k]` and a word starting at `k`. */
  ghost predicate RegexMatchAt(s: string, words: seq<string>, i: int, j: int, k: int) {
    0 <= i < j <= k <= |s| && AllDigits(s[i..j]) && AllWhitespace(s[j..k]) && StartsWithAny(s[k..], words)
  }

  predicate WordsStartWithLetters(words: seq<string>) {
    forall i :: 0 <= i < |words| ==> |words[i]| > 0 && !IsWhitespace(words[i][0])
  }

  /** A maximal whitespace run is exactly what `TrimStart` removes. */
  lemma TrimStartOfRun(x: string, n: nat)
    requires n <= |x| && AllWhitespace(x[..n])
    requires n == |x| || !IsWhitespace(x[n])
    ensures TrimStart(x) == x[n..]
  {
    var r := TrimStart(x);
    var m := |x| - |r|;
    forall i | 0 <= i < m ensures IsWhitespace(x[i]) {
      assert x[..m][i] == x[i];
    }
    forall i | 0 <= i < n ensures IsWhitespace(x[i]) {
      assert x[..n][i] == x[i];
    }
    assert m < |x| ==> r[0] == x[m];
    assert m == n;
  }

  lemma {:induction false} DigitThenWordSuffix(s: string, words: seq<string>, t: nat)
    requires t <= |s| && DigitThenWord(s[t..], words)
    ensures DigitThenWord(s, words)
    decreases t
  {
    if t > 0 {
      assert s[1..][t - 1..] == s[t..];
      DigitThenWordSuffix(s[1..], words, t - 1);
    }
  }

  /** A match right at the front: the digit `s[0]`, the whitespace `TrimStart`
      skips, and the word it leaves in front. */
  lemma RegexMatchHere(s: string, words: seq<string>)
    requires |s| > 0 && IsDigit(s[0]) && StartsWithAny(TrimStart(s[1..]), words)
    ensures RegexMatchAt(s, words, 0, 1, |s| - |TrimStart(s[1..])|)
  {
    var x := s[1..];
    var t := TrimStart(x);
    var k := 1 + (|x| - |t|);
    assert s[k..] == t;
    assert s[1..k] == x[..|x| - |t|];
    assert s[0..1] == [s[0]];
  }

  /** A match in the tail is a match one position further on. */
  lemma RegexMatchShift(s: string, words: seq<string>, i: int, j: int, k: int)
    requires |s| > 0 && RegexMatchAt(s[1..], words, i, j, k)
    ensures RegexMatchAt(s, words, i + 1, j + 1, k + 1)
  {
    assert s[1..][i..j] == s[i + 1..j + 1];
    assert s[1..][j..k] == s[j + 1..k + 1];
    assert s[1..][k..] == s[k + 1..];
  }

  lemma {:induction false} DigitThenWordSound(s: string, words: seq<string>)
    requires DigitThenWord(s, words)
    ensures exists i, j, k :: RegexMatchAt(s, words, i, j, k)
    decreases |s|
  {
    if IsDigit(s[0]) && StartsWithAny(TrimStart(s[1..]), words) {
      RegexMatchHere(s, words);
    } else {
      DigitThenWordSound(s[1..], words);
      var i, j, k :| RegexMatchAt(s[1..], words, i, j, k);
      RegexMatchShift(s, words, i, j, k);
    }
  }

  /** The whitespace between a digit run and a word is what `TrimStart` skips. */
  lemma TrimStartBeforeWord(s: string, j: int, k: int)
    requires 0 <= j <= k <= |s| && AllWhitespace(s[j..k])
    requires k == |s| || !IsWhitespace(s[k])
    ensures TrimStart(s[j..]) == s[k..]
  {
    var x := s[j..];
    assert x[..k - j] == s[j..k];
    assert k - j == |x| || x[k - j] == s[k];
    TrimStartOfRun(x, k - j);
    assert x[k - j..] == s[k..];
  }

  lemma DigitThenWordComplete(s: string, words: seq<string>, i: int, j: int, k: int)
    requires WordsStartWithLetters(words)
    requires RegexMatchAt(s, words, i, j, k)
    ensures DigitThenWord(s, words)
  {
    var w :| 0 <= w < |words| && words[w] <= s[k..];
    assert s[k] == words[w][0];
    TrimStartBeforeWord(s, j, k);
    var d := s[j - 1..];
    assert d[0] == s[i..j][j - 1 - i];
    assert d[1..] == s[j..];
    assert DigitThenWord(d, words);
    DigitThenWordSuffix(s, words, j - 1);
  }

  /** The scan agrees with the regular expression's semantics in both directions. */
  lemma DigitThenWordIff(s: string, words: seq<string>)
    requires WordsStartWithLetters(words)
    ensures DigitThenWord(s, words) <==> exists i, j, k :: RegexMatchAt(s, words, i, j, k)
  {
    if DigitThenWord(s, words) {
      DigitThenWordSound(s, words);
    }
    if exists i, j, k :: RegexMatchAt(s, words, i, j, k) {
      var i, j, k :| RegexMatchAt(s, words, i, j, k);
      DigitThenWordComplete(s, words, i, j, k);
    }
  }

  /** The regular expressions' word lists are of the kind `DigitThenWordIff` needs. */
  lemma UnitWordsStartWithLetters()
    ensures WordsStartWithLetters(BedroomWords)
    ensures WordsStartWithLetters(PriceUnits)
  {
  }

  /** `bedroom` is redundant beside `bed`, and `thanks` beside `thank`. */
  lemma RedundantAlternatives(s: string)
    ensures StartsWithAny(s, BedroomWords) <==> StartsWithAny(s, ["bed", "br"])
    ensures ContainsAny(s, GratitudeKeywords) <==> ContainsAny(s, ["thank", "appreciate"])
  {
    if StartsWithAny(s, BedroomWords) {
      var i :| 0 <= i < |BedroomWords| && BedroomWords[i] <= s;
      if i == 1 {
        assert "bed" <= "bedroom";
      }
      assert ["bed", "br"][if i == 2 then 1 else 0] <= s;
    }
    if StartsWithAny(s, ["bed", "br"]) {
      var i :| 0 <= i < 2 && ["bed", "br"][i] <= s;
      assert BedroomWords[if i == 1 then 2 else 0] <= s;
    }
    if ContainsAny(s, GratitudeKeywords) {
      var i :| 0 <= i < |GratitudeKeywords| && Contains(s, GratitudeKeywords[i]);
      if i == 1 {
        ContainsPrefixOfWord(s, "thank", "thanks");
      }
      assert Contains(s, ["thank", "appreciate"][if i == 2 then 1 else 0]);
    }
    if ContainsAny(s, ["thank", "appreciate"]) {
      var i :| 0 <= i < 2 && Contains(s, ["thank", "appreciate"][i]);
      assert Contains(s, GratitudeKeywords[if i == 1 then 2 else 0]);
    }
  }

  // ---------------------------------------------------------------------------
  // Rules

  datatype Rule = Greeting | PropertyInquiry | BedroomInquiry | PriceInquiry | ContactRequest | Gratitude | Fallback

  /** The pattern each rule tests against the normalised text. */
  predicate Fires(rule: Rule, m: string) {
    match rule
    case Greeting => StartsWithAny(m, GreetingPrefixes)
    case PropertyInquiry => ContainsAny(m, PropertyKeywords)
    case BedroomInquiry => DigitThenWord(m, BedroomWords)
    case PriceInquiry => DollarAmount(m) || DigitThenWord(m, PriceUnits)
    case ContactRequest => ContainsAny(m, ContactKeywords)
    case Gratitude => ContainsAny(m, GratitudeKeywords)
    case Fallback => true
  }

  /** The order in which the rules are tried. */
  const RuleOrder: seq<Rule> := [Greeting, PropertyInquiry, BedroomInquiry, PriceInquiry, ContactRequest, Gratitude, Fallback]

  function Rank(rule: Rule): (k: nat)
    ensures k < |RuleOrder| && RuleOrder[k] == rule
  {
    match rule
    case Greeting => 0
    case PropertyInquiry => 1
    case BedroomInquiry => 2
    case PriceInquiry => 3
    case ContactRequest => 4
    case Gratitude => 5
    case Fallback => 6
  }

  /** The chain of `if (message.match(...))` tests: the rule it picks fires,
      and no rule tried before it does. */
  function Classify(m: string): (rule: Rule)
    ensures Fires(rule, m)
    ensures forall earlier: Rule :: Rank(earlier) < Rank(rule) ==> !Fires(earlier, m)
  {
    if StartsWithAny(m, GreetingPrefixes) then Greeting
    else if ContainsAny(m, PropertyKeywords) then PropertyInquiry
    else if DigitThenWord(m, BedroomWords) then BedroomInquiry
    else if DollarAmount(m) || DigitThenWord(m, PriceUnits) then PriceInquiry
    else if ContainsAny(m, ContactKeywords) then ContactRequest
    else if ContainsAny(m, GratitudeKeywords) then Gratitude
    else Fallback
  }

  /** First-match-wins over a rule list, as a reference definition. */
  function FirstFiring(rules: seq<Rule>, m: string): (r: Rule)
    requires Fallback in rules
    ensures r in rules && Fires(r, m)
  {
    if Fires(rules[0], m) then rules[0] else FirstFiring(rules[1..], m)
  }

  /** First-match-wins returns the first rule of the list that fires. */
  lemma {:induction false} FirstFiringAt(rules: seq<Rule>, m: string, k: nat)
    requires Fallback in rules
    requires k < |rules| && Fires(rules[k], m)
    requires forall j :: 0 <= j < k ==> !Fires(rules[j], m)
    ensures FirstFiring(rules, m) == rules[k]
    decreases k
  {
    if k > 0 {
      assert !Fires(rules[0], m);
      assert Fallback in rules[1..] by {
        var f :| 0 <= f < |rules| && rules[f] == Fallback;
        assert f != 0;
        assert rules[1..][f - 1] == Fallback;
      }
      FirstFiringAt(rules[1..], m, k - 1);
    }
  }

  /** The if-chain is first-match-wins over `RuleOrder`. */
  lemma ClassifyIsFirstFiring(m: string)
    ensures Classify(m) == FirstFiring(RuleOrder, m)
  {
    var c := Classify(m);
    assert RuleOrder[6] == Fallback;
    RankOfOrder();
    FirstFiringAt(RuleOrder, m, Rank(c));
  }

  lemma RankOfOrder()
    ensures forall j :: 0 <= j < |RuleOrder| ==> Rank(RuleOrder[j]) == j
  {
  }

  /** The rule an input gets is the one that fires with no earlier rule
      firing, and no other. */
  lemma ClassifyUnique(m: string, rule: Rule)
    ensures Classify(m) == rule <==>
              Fires(rule, m) && forall earlier: Rule :: Rank(earlier) < Rank(rule) ==> !Fires(earlier, m)
  {
    var c := Classify(m);
    if Fires(rule, m) && forall earlier: Rule :: Rank(earlier) < Rank(rule) ==> !Fires(earlier, m) {
      assert Rank(c) < Rank(rule) ==> !Fires(c, m);
      assert Rank(rule) < Rank(c) ==> !Fires(rule, m);
      assert RuleOrder[Rank(c)] == c && RuleOrder[Rank(rule)] == rule;
    }
  }

  // ---------------------------------------------------------------------------
  // Replies

  // Reply texts. Each is a short first word followed by the rest, which is a
  // constant of its own so that facts about the first word stay cheap.
  const GreetingRest := "Thank you for your interest in our properties. How can I help you today?"
  const RequirementsRest := "be happy to help you find a property! What are you looking for? (e.g., 3 bedrooms, 2 bathrooms, under $500,000)"
  const BedroomPromptRest := "be happy to help you find properties! How many bedrooms are you looking for?"
  const PriceRest := "I'll search for properties in that price range. What area are you interested in?"
  const ContactRest := "be happy to connect you with one of our agents! Please provide your name and best time to contact you, or call us directly."
  const GratitudeRest := "welcome! Is there anything else I can help you with?"
  const DefaultRest := "you for your message! I'm here to help you find the perfect property. You can ask me about available properties, prices, or schedule a viewing."
  const PropertyCountRest := " properties available! Would you like to see details about a specific property, or tell me what you're looking for (bedrooms, bathrooms, price range)?"
  const BedroomCountRest := " bedroom properties. What's your price range?"

  const GreetingReply := "Hello! " + GreetingRest
  const RequirementsPrompt := "I'd " + RequirementsRest
  const BedroomPrompt := "I'd " + BedroomPromptRest
  const PriceReply := "Perfect! " + PriceRest
  const ContactReply := "I'd " + ContactRest
  const GratitudeReply := "You're " + GratitudeRest
  const DefaultReply := "Thank " + DefaultRest

  function PropertyCountReply(count: nat): string {
    "We have " + NatToString(count) + PropertyCountRest
  }

  function BedroomCountReply(bedrooms: nat): string {
    "Great! I'll look for " + NatToString(bedrooms) + BedroomCountRest
  }

  /** A digit run that cannot be extended on either side. */
  predicate LeadingDigits(s: string, run: string) {
    run <= s && AllDigits(run) && (|run| == |s| || !IsDigit(s[|run|]))
  }

  function TakeDigits(s: string): (run: string)
    ensures LeadingDigits(s, run)
  {
    if s != [] && IsDigit(s[0]) then [s[0]] + TakeDigits(s[1..]) else []
  }

  /** `message.match(/(\d+)/)[0]`: the first maximal digit run, or empty when
      the text has no digit. */
  function FirstDigitRun(s: string): (run: string)
    ensures AllDigits(run)
    ensures run == [] <==> NoDigits(s)
  {
    if s == [] then []
    else if IsDigit(s[0]) then TakeDigits(s)
    else FirstDigitRun(s[1..])
  }

  /** The first digit run sits after a digit-free prefix and is maximal. */
  lemma {:induction false} FirstDigitRunShape(s: string)
    requires !NoDigits(s)
    ensures exists p :: 0 <= p && p + |FirstDigitRun(s)| <= |s| && NoDigits(s[..p])
                     && LeadingDigits(s[p..], FirstDigitRun(s))
  {
    if IsDigit(s[0]) {
      assert s[0..] == s && NoDigits(s[..0]);
    } else {
      FirstDigitRunShape(s[1..]);
      var p :| 0 <= p && p + |FirstDigitRun(s[1..])| <= |s[1..]| && NoDigits(s[1..][..p])
               && LeadingDigits(s[1..][p..], FirstDigitRun(s[1..]));
      FirstDigitRunStep(s, p);
    }
  }

  /** Skipping a leading non-digit moves the run's position by one. */
  lemma FirstDigitRunStep(s: string, p: nat)
    requires |s| > 0 && !IsDigit(s[0])
    requires p + |FirstDigitRun(s[1..])| <= |s[1..]| && NoDigits(s[1..][..p])
    requires LeadingDigits(s[1..][p..], FirstDigitRun(s[1..]))
    ensures p + 1 + |FirstDigitRun(s)| <= |s| && NoDigits(s[..p + 1])
    ensures LeadingDigits(s[p + 1..], FirstDigitRun(s))
  {
    assert FirstDigitRun(s) == FirstDigitRun(s[1..]);
    assert s[1..][p..] == s[p + 1..];
    assert s[..p + 1] == [s[0]] + s[1..][..p];
  }

  /** The bedroom reply: the first digit run is echoed when it parses to a
      positive number; `parseInt` giving `0` is falsy and selects the prompt. */
  function BedroomAnswer(m: string): string {
    var run := FirstDigitRun(m);
    if run != [] && ParseDecimal(run) > 0 then BedroomCountReply(ParseDecimal(run)) else BedroomPrompt
  }

  function Reply(rule: Rule, m: string, propertyCount: nat): string {
    match rule
    case Greeting => GreetingReply
    case PropertyInquiry => if propertyCount > 0 then PropertyCountReply(propertyCount) else RequirementsPrompt
    case BedroomInquiry => BedroomAnswer(m)
    case PriceInquiry => PriceReply
    case ContactRequest => ContactReply
    case Gratitude => GratitudeReply
    case Fallback => DefaultReply
  }

  /** `incomingMessage.toLowerCase().trim()`. */
  function Normalize(incoming: string): string {
    Trim(ToLower(incoming))
  }

  datatype AIResponse = AIResponse(message: string, shouldRespond: bool)

  /** `generateAIResponse`. Only the number of available properties is used
      from the context; the lead's name is passed in the source but never read.
      Every branch, the default one included, asks for the reply to be sent. */
  function GenerateAIResponse(incoming: string, propertyCount: nat): (r: AIResponse)
    ensures r.shouldRespond
    ensures StartsWithAny(Normalize(incoming), GreetingPrefixes) ==> r.message == GreetingReply
  {
    var m := Normalize(incoming);
    AIResponse(Reply(Classify(m), m, propertyCount), true)
  }

  /** Only the property rule's replies start with 'W' (with a count) or spell
      the requirements prompt; only the price rule's starts with 'P'. */
  lemma ReplyMarkers(rule: Rule, m: string, n: nat)
    ensures |Reply(rule, m, n)| > 0
    ensures Reply(rule, m, n)[0] == 'P' <==> rule == PriceInquiry
    ensures Reply(rule, m, n)[0] == 'W' <==> rule == PropertyInquiry && n > 0
  {
    ReplyInitials(n, ParseDecimal(FirstDigitRun(m)));
  }

  /** The first character of every reply text. */
  lemma ReplyInitials(count: nat, bedrooms: nat)
    ensures |GreetingReply| > 0 && GreetingReply[0] == 'H'
    ensures |RequirementsPrompt| > 0 && RequirementsPrompt[0] == 'I'
    ensures |BedroomPrompt| > 0 && BedroomPrompt[0] == 'I'
    ensures |PriceReply| > 0 && PriceReply[0] == 'P'
    ensures |ContactReply| > 0 && ContactReply[0] == 'I'
    ensures |GratitudeReply| > 0 && GratitudeReply[0] == 'Y'
    ensures |DefaultReply| > 0 && DefaultReply[0] == 'T'
    ensures |PropertyCountReply(count)| > 0 && PropertyCountReply(count)[0] == 'W'
    ensures |BedroomCountReply(bedrooms)| > 0 && BedroomCountReply(bedrooms)[0] == 'G'
  {
  }


  /** The property reply mentions the number of available properties exactly
      when there are some; otherwise it is the fixed requirements prompt. */
  lemma PropertyReplyMentionsCount(incoming: string, propertyCount: nat)
    requires Classify(Normalize(incoming)) == PropertyInquiry
    ensures var r := GenerateAIResponse(incoming, propertyCount);
            (r.message == PropertyCountReply(propertyCount) <==> propertyCount > 0)
            && (propertyCount == 0 ==> r.message == RequirementsPrompt)
  {
    ReplyInitials(propertyCount, 0);
  }

  /** The bedroom reply echoes the first digit run of the text, which holds
      one; a run that parses to zero selects the generic prompt. */
  lemma BedroomReplyEchoesFirstRun(incoming: string, propertyCount: nat)
    requires Classify(Normalize(incoming)) == BedroomInquiry
    ensures var run := FirstDigitRun(Normalize(incoming));
            run != [] &&
            GenerateAIResponse(incoming, propertyCount).message ==
              (if ParseDecimal(run) > 0 then BedroomCountReply(ParseDecimal(run)) else BedroomPrompt)
  {
    BedroomRuleHasDigit(Normalize(incoming));
  }

  /** The price reply is given exactly when no greeting, property or bedroom
      pattern matched and the text holds `$` and a digit, or a number with
      `k`, `thousand` or `million`. */
  lemma PriceReplyIff(incoming: string, propertyCount: nat)
    ensures var m := Normalize(incoming);
            GenerateAIResponse(incoming, propertyCount).message == PriceReply <==>
              !StartsWithAny(m, GreetingPrefixes) && !ContainsAny(m, PropertyKeywords)
              && !DigitThenWord(m, BedroomWords)
              && (DollarAmount(m) || DigitThenWord(m, PriceUnits))
  {
    var m := Normalize(incoming);
    ReplyMarkers(Classify(m), m, propertyCount);
    assert PriceReply[0] == 'P';
  }

  /** Text the bedroom rule fires on holds a digit. */
  lemma {:induction false} BedroomRuleHasDigit(s: string)
    ensures DigitThenWord(s, BedroomWords) ==> !NoDigits(s)
    decreases |s|
  {
    if DigitThenWord(s, BedroomWords) && !IsDigit(s[0]) {
      BedroomRuleHasDigit(s[1..]);
      assert s[1..][0] == s[1];
      var i :| 0 <= i < |s[1..]| && IsDigit(s[1..][i]);
      assert IsDigit(s[i + 1]);
    }
  }

  // ---------------------------------------------------------------------------
  // Whether to answer at all

  /** `w` is a prefix of `s` once `s` is lower-cased. */
  predicate PrefixIgnoringCase(w: string, s: string) {
    |w| <= |s| && forall i :: 0 <= i < |w| ==> LowerChar(s[i]) == w[i]
  }

  predicate EqualsIgnoringCase(w: string, s: string) {
    |w| == |s| && PrefixIgnoringCase(w, s)
  }

  /** `shouldAutoRespond`: no reply to a text that, lower-cased but not
      trimmed, starts with an opt-out word or is exactly a short
      acknowledgement. */
  function ShouldAutoRespond(message: string): (r: bool)
    ensures !r <==> ((exists i :: 0 <= i < |OptOutPrefixes| && PrefixIgnoringCase(OptOutPrefixes[i], message))
                  || (exists i :: 0 <= i < |Acknowledgements| && EqualsIgnoringCase(Acknowledgements[i], message)))
  {
    var lower := ToLower(message);
    LowerPrefixes(OptOutPrefixes, message);
    LowerPrefixes(Acknowledgements, message);
    !(StartsWithAny(lower, OptOutPrefixes) || lower in Acknowledgements)
  }

  /** Comparing against the lower-cased text is comparing ignoring case. */
  lemma LowerPrefixes(words: seq<string>, s: string)
    ensures forall i :: 0 <= i < |words| ==> (words[i] <= ToLower(s) <==> PrefixIgnoringCase(words[i], s))
    ensures forall i :: 0 <= i < |words| ==> (words[i] == ToLower(s) <==> EqualsIgnoringCase(words[i], s))
  {
    forall i | 0 <= i < |words|
      ensures words[i] <= ToLower(s) <==> PrefixIgnoringCase(words[i], s)
      ensures words[i] == ToLower(s) <==> EqualsIgnoringCase(words[i], s)
    {
      var w := words[i];
      if PrefixIgnoringCase(w, s) {
        assert ToLower(s)[..|w|] == w;
      }
    }
  }

  /** Two texts that agree once lower-cased get the same decision. */
  lemma ShouldAutoRespondIgnoresCase(a: string, b: string)
    requires |a| == |b|
    requires forall i :: 0 <= i < |a| ==> LowerChar(a[i]) == LowerChar(b[i])
    ensures ShouldAutoRespond(a) == ShouldAutoRespond(b)
  {
    assert ToLower(a) == ToLower(b);
  }

  // ---------------------------------------------------------------------------
  // Worked examples

  /** A word with a character the text lacks does not occur in it. */
  lemma {:induction false} MissingCharNotContained(s: string, w: string, k: nat)
    requires k < |w| && w[k] !in s
    ensures !Contains(s, w)
    decreases |s|
  {
    if k < |s| {
      assert s[k] in s;
    }
    if |s| > 0 {
      MissingCharNotContained(s[1..], w, k);
    }
  }

  /** None of the words occurs when each lacks some character of the text:
      `missing[i]` is the position of such a character in `words[i]`. */
  lemma KeywordsAbsent(s: string, words: seq<string>, missing: seq<nat>)
    requires |missing| == |words|
    requires forall i :: 0 <= i < |words| ==> missing[i] < |words[i]| && words[i][missing[i]] !in s
    ensures !ContainsAny(s, words)
  {
    forall i | 0 <= i < |words|
      ensures !Contains(s, words[i])
    {
      MissingCharNotContained(s, words[i], missing[i]);
    }
  }

  /** None of the words is a prefix when the text starts with a character
      none of them starts with. */
  lemma PrefixesAbsent(s: string, words: seq<string>)
    requires |s| > 0
    requires forall i :: 0 <= i < |words| ==> |words[i]| > 0 && words[i][0] != s[0]
    ensures !StartsWithAny(s, words)
  {
  }

  /** The first digit run starts at the first digit. */
  lemma {:induction false} FirstDigitRunAt(s: string, p: nat)
    requires p < |s| && NoDigits(s[..p]) && IsDigit(s[p])
    ensures FirstDigitRun(s) == TakeDigits(s[p..])
    decreases p
  {
    if p > 0 {
      assert s[0] == s[..p][0];
      assert s[1..][..p - 1] == s[1..p];
      assert s[1..][p - 1..] == s[p..];
      FirstDigitRunAt(s[1..], p - 1);
    }
  }

  lemma LowerCaseOf(s: string, t: string)
    requires |s| == |t| && forall i :: 0 <= i < |s| ==> LowerChar(s[i]) == t[i]
    ensures ToLower(s) == t
  {
  }

  /** Text without upper-case letters or surrounding whitespace is already
      normalised. */
  lemma NormalizedText(s: string)
    requires forall i :: 0 <= i < |s| ==> !('A' <= s[i] <= 'Z')
    requires |s| > 0 && !IsWhitespace(s[0]) && !IsWhitespace(s[|s| - 1])
    ensures Normalize(s) == s
  {
    assert forall i :: 0 <= i < |s| ==> LowerChar(s[i]) == s[i];
    LowerCaseOf(s, s);
    assert TrimStart(s) == s;
    assert TrimEnd(s) == s;
  }
}
