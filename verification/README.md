# SMS conversation engine — a Dafny model

This project models the SMS conversation engine of a small real-estate CRM
backend, and proves properties about it. The engine does four things:

- **Canonicalises phone numbers.** Any spelling becomes `+1` followed by the digits.
- **Resolves a sender to a lead.** It finds a lead by phone, or creates a placeholder lead.
- **Keeps an append-only message ledger.** It reads the ledger back as per-lead summaries and chronological listings.
- **Decides whether to answer an inbound text.** When it does, it builds the answer with an ordered, first-match-wins rule engine.

The database is an immutable `Store` value: a lead table and a message
ledger. Each HTTP handler is a pure function from the store before the
request to the store after it. The function also returns the HTTP response
and the SMS, if any, that the handler passed to `sendSMS`, whether or not
the provider then sent it. The provider itself is an input. A `Config`, the three environment credentials,
and a `ProviderReply`, what `messages.create` did, together determine
whether `sendSMS` returns an id, returns `null` or throws.

Modules, one file each:

| module | file | what it holds |
|---|---|---|
| `Common` | common.dfy | `Option` and JavaScript truthiness of strings |
| `Text` | text.dfy | lower-casing, `trim`, substring search, decimal numerals (ASCII) |
| `PhoneFormat` | phone.dfy | `formatPhoneNumber` and its algebra |
| `Gateway` | gateway.dfy | `sendSMS` as a three-way outcome |
| `AutoResponse` | autoresponse.dfy | `generateAIResponse` and `shouldAutoRespond` |
| `AutoResponseExamples` | autoresponse_examples.dfy | worked inputs for the rule engine |
| `Ledger` | ledger.dfy | leads, messages, the store, lookups, well-formedness |
| `Conversations` | conversations.dfy | the three read handlers |
| `Pipelines` | pipelines.dfy | the operator send and inbound webhook handlers |
| `PipelineExamples` | pipeline_examples.dfy | a concrete webhook call for the finding below |

Behaviour of the code that the model keeps, although a reader might expect
otherwise:

- **Summary order.** The conversation summary is not sorted after grouping, so no order of summaries is promised.
- **Equal timestamps.** Listings sort on `createdAt` alone, so messages with equal timestamps come out in no promised order. No lemma depends on how such ties are broken.
- **Opt-out test.** `shouldAutoRespond` lower-cases but does not trim the text, so `" stop"` is answered.
- **Throwing auto-reply.** When the auto-reply's send throws, the webhook stores no outbound message for it.
- **Whitespace-only body.** The webhook accepts a whitespace-only `Body`, because it checks truthiness, not trimmed text.
- **Zero bedrooms.** A bedroom count that parses to zero is falsy and selects the generic prompt.
- **Idempotence of canonical form.** Formatting is idempotent only on `+1` plus ten digits. Any other length gains another `1` on a second pass.
- **Placeholder email.** The lead schema marks email as required, but the webhook creates a placeholder lead with an empty email. The model assumes that save succeeds.

## Model

| member | source | states |
|---|---|---|
| PhoneFormat.StripNonDigits | backend/src/services/twilioService.ts:43 | the result holds only digits and is no longer than the input |
| PhoneFormat.FormatPhoneNumber | backend/src/services/twilioService.ts:41-50 | the result is `+1` then digits; its length is the digit count plus 2, less 1 when an 11-digit run starting with `1` lost that country code; those digits are exactly the input's digits with that `1` removed |
| PhoneFormat.StripAppend | backend/src/services/twilioService.ts:43 | removing non-digits distributes over concatenation |
| PhoneFormat.InsertNonDigits | backend/src/services/twilioService.ts:41-50 | inserting punctuation or spaces anywhere does not change the canonical number |
| PhoneFormat.StripCanonical | backend/src/services/twilioService.ts:43-49 | the digits of a formatted number are `1` followed by the cleaned digits |
| PhoneFormat.FormatIdempotentIff | backend/src/services/twilioService.ts:41-50 | formatting a formatted number changes nothing exactly when it has ten digits after `+1`; otherwise a second pass inserts another `1` |
| PhoneFormat.CanonicalIsFixedPoint | backend/src/services/twilioService.ts:41-50 | `+1` plus ten digits is a fixed point |
| Gateway.SendSMS | backend/src/services/twilioService.ts:14-39 | no client or no sender number yields `null`; otherwise the provider's sid is returned when it accepts the message, and an error is thrown when it rejects it; each outcome occurs exactly in its case |
| Gateway.ReturnedId | backend/src/routes/communications.ts:95-104 | the id the handler holds after the try block: present exactly when `sendSMS` returned one, and equal to it |
| Text.ToLower | backend/src/services/aiService.ts:15 | same length, each character lower-cased on its own, so no upper-case letter remains and digits and whitespace are kept |
| Text.Trim | backend/src/services/aiService.ts:15 | the result is no longer than the input and neither starts nor ends with whitespace |
| Text.TrimShape | backend/src/services/aiService.ts:15 | the result is the input with a whitespace-only prefix and suffix removed |
| Text.ContainsIff | backend/src/services/aiService.ts:26 | an unanchored search for a word succeeds exactly when the word occurs at some position |
| Text.ContainsPrefixOfWord | backend/src/services/aiService.ts:70 | text containing a word contains every prefix of that word |
| Text.NatToString | backend/src/services/aiService.ts:30 | a number's numeral is non-empty and all digits, and starts with `0` only for zero |
| Text.ParseNatToString | backend/src/services/aiService.ts:44-47 | reading back the numeral of a number gives that number |
| Text.NatToStringParse | backend/src/services/aiService.ts:44-47 | a numeral without leading zeros is the numeral of its own value |
| Text.LeadingDigitPositive | backend/src/services/aiService.ts:44-46 | a numeral that does not start with `0` has a positive value, so it is truthy |
| AutoResponse.DigitThenWordIff | backend/src/services/aiService.ts:42 | the recursive matcher accepts exactly the texts holding digits, optional whitespace, then one of the words, given words that start with letters |
| AutoResponse.UnitWordsStartWithLetters | backend/src/services/aiService.ts:54 | the bedroom and price unit words start with letters, so the matcher reduction applies to both patterns |
| AutoResponse.RedundantAlternatives | backend/src/services/aiService.ts:42 | in the bedroom pattern `bedroom` adds nothing to `bed`, and in the gratitude pattern (line 70) `thanks` adds nothing to `thank` |
| AutoResponse.Rank | backend/src/services/aiService.ts:17-81 | every rule sits at its position in the evaluation order |
| AutoResponse.Classify | backend/src/services/aiService.ts:17-81 | the selected rule fires on the text, and no rule earlier in the order does |
| AutoResponse.FirstFiring | backend/src/services/aiService.ts:17-81 | scanning an order that contains the fallback yields a rule of that order that fires |
| AutoResponse.ClassifyIsFirstFiring | backend/src/services/aiService.ts:17-81 | the if-chain picks the same rule as scanning the rule order for the first that fires |
| AutoResponse.ClassifyUnique | backend/src/services/aiService.ts:17-81 | a rule is selected exactly when it fires and no earlier rule does |
| AutoResponse.TakeDigits | backend/src/services/aiService.ts:43 | the run taken is a maximal leading run of digits |
| AutoResponse.FirstDigitRun | backend/src/services/aiService.ts:43 | the first digit run is all digits, and is empty exactly when the text holds no digit |
| AutoResponse.FirstDigitRunShape | backend/src/services/aiService.ts:43 | the run sits after a digit-free prefix and is not followed by a digit |
| AutoResponse.GenerateAIResponse | backend/src/services/aiService.ts:11-82 | every reply asks to be sent; a text starting with a greeting gets the greeting |
| AutoResponse.ReplyMarkers | backend/src/services/aiService.ts:17-81 | only the price rule's reply starts with `P`, and only the property rule with a positive count gives a reply starting with `W` |
| AutoResponse.ReplyInitials | backend/src/services/aiService.ts:17-81 | the first character of every reply text: `H` for the greeting, `I` for the requirements prompt, the bedroom prompt and the contact reply, `P` for the price reply, `Y` for thanks, `T` for the default, `W` for the counted property reply and `G` for the counted bedroom reply |
| AutoResponse.PropertyReplyMentionsCount | backend/src/services/aiService.ts:26-38 | the property reply quotes the count exactly when the count is positive; otherwise it is the requirements prompt |
| AutoResponse.BedroomReplyEchoesFirstRun | backend/src/services/aiService.ts:42-51 | the bedroom reply echoes the value of the first digit run when it is positive, else the bedroom prompt; that run exists |
| AutoResponse.PriceReplyIff | backend/src/services/aiService.ts:54-59 | the price reply is given exactly when neither greeting, property nor bedroom pattern matched and a `$` amount or a number with `k`, `thousand` or `million` is present |
| AutoResponse.BedroomRuleHasDigit | backend/src/services/aiService.ts:42-43 | text the bedroom pattern matches holds a digit |
| AutoResponse.ShouldAutoRespond | backend/src/services/aiService.ts:84-94 | no answer exactly when the text starts with an opt-out word or equals an acknowledgement, both ignoring case |
| AutoResponse.LowerPrefixes | backend/src/services/aiService.ts:85-93 | testing the lower-cased text against lower-case words is testing the text ignoring case |
| AutoResponse.ShouldAutoRespondIgnoresCase | backend/src/services/aiService.ts:85 | texts that differ only in letter case get the same decision |
| AutoResponseExamples.OptOutExample | backend/src/services/aiService.ts:89 | `STOP` is not answered |
| AutoResponseExamples.AcknowledgementExample | backend/src/services/aiService.ts:90 | `Okay` is not answered |
| AutoResponseExamples.LeadingSpaceExample | backend/src/services/aiService.ts:85-93 | ` stop` is answered: the opt-out test does not trim |
| AutoResponseExamples.LongerAcknowledgementExample | backend/src/services/aiService.ts:90 | `ok thanks` is answered: acknowledgements must be the whole text |
| AutoResponseExamples.GreetingExample | backend/src/services/aiService.ts:15-23 | `Hi there` gets the greeting |
| AutoResponseExamples.GreetingBeatsPriceExample | backend/src/services/aiService.ts:18-26 | `high price` gets the greeting, because `high` starts with `hi` |
| AutoResponseExamples.BedroomExample | backend/src/services/aiService.ts:42-47 | `looking for 3 bedroom` gets the 3-bedroom reply |
| AutoResponseExamples.FirstNumberEchoedExample | backend/src/services/aiService.ts:42-47 | `2 baths 3 bed` gets the 2-bedroom reply: the first number is echoed, not the one before `bed` |
| AutoResponseExamples.ZeroBedroomsExample | backend/src/services/aiService.ts:44-48 | `0 bed` gets the generic bedroom prompt |
| Ledger.FindLead | backend/src/routes/communications.ts:135 | the position found holds the first lead matching the id or phone; none is found exactly when no lead matches |
| Ledger.FreshLeadId | backend/src/routes/communications.ts:138-144 | a new lead's id differs from every stored lead's id |
| Conversations.Select | backend/src/routes/communications.ts:59 | the selection holds only matching messages and is no longer than the ledger |
| Conversations.SelectCounts | backend/src/routes/communications.ts:59 | every matching message occurs in the selection as often as in the ledger, and nothing else does |
| Conversations.SelectEmptyIff | backend/src/routes/communications.ts:59 | the selection is empty exactly when no message of the ledger matches |
| Conversations.SelectMembers | backend/src/routes/communications.ts:59 | every matching message of the ledger is selected, and only messages of the ledger are |
| Conversations.SelectAppend | backend/src/routes/communications.ts:59 | selecting from an appended ledger appends the selections |
| Conversations.SelectCommutes | backend/src/routes/communications.ts:23-27 | counting a lead's inbound messages equals counting the inbound messages of that lead |
| Conversations.InsertByTime | backend/src/routes/communications.ts:60 | inserting into an ascending list keeps it ascending and adds exactly the new message |
| Conversations.SortByTime | backend/src/routes/communications.ts:60 | the result is ascending by `createdAt` and a permutation of the input |
| Conversations.SortAppendLatest | backend/src/routes/communications.ts:60 | a message strictly newer than every other sorts last, after the others in their sorted order |
| Conversations.MessagesForLead | backend/src/routes/communications.ts:57-65 | the listing is oldest first and holds exactly the lead's messages, with multiplicity |
| Conversations.MessagesForPhone | backend/src/routes/communications.ts:68-77 | the listing is oldest first and holds exactly the messages stored under the canonical form of the given number |
| Conversations.PhoneListingIgnoresSpelling | backend/src/routes/communications.ts:70-72 | two spellings with the same digits list the same conversation |
| Conversations.LeadsWithMessages | backend/src/routes/communications.ts:18-19 | the group keys are distinct, cover every message's lead, and each belongs to some message |
| Conversations.Latest | backend/src/routes/communications.ts:15-21 | the message chosen is in the group and no message of the group is newer |
| Conversations.LeadName | backend/src/routes/communications.ts:36-40 | the lead's name, or `Unknown` when the lead is missing or its name is empty |
| Conversations.Summarize | backend/src/routes/communications.ts:13-46 | body, time and phone come from one message of the lead that no message of the lead postdates; the count is the number of the lead's messages and unread the number of its inbound ones; the count is between 1 and the ledger size; unread is at most the count and is zero exactly when the lead sent nothing inbound |
| Conversations.UnreadIff | backend/src/routes/communications.ts:23-27 | a lead's inbound selection is empty exactly when none of the lead's messages is inbound |
| Conversations.ListConversations | backend/src/routes/communications.ts:11-54 | one summary per group key, each the summary of its lead |
| Conversations.OneSummaryPerLead | backend/src/routes/communications.ts:17-19 | no lead has two summaries, every lead with a message has one, and no summary is for a lead without messages |
| Conversations.EveryLeadSummarized | backend/src/routes/communications.ts:17-19 | every message's lead has a summary |
| Conversations.ConversationTotals | backend/src/routes/communications.ts:22-27 | the message counts add up to the ledger size, and the unread counts to the number of inbound messages |
| Conversations.SumThreadsIsLength | backend/src/routes/communications.ts:22 | over distinct leads covering the ledger, the per-lead message counts add up to the ledger size |
| Pipelines.SendToLead | backend/src/routes/communications.ts:80-121 | a missing or blank body gets 400, then an unknown lead 404, both with no change and no send. Otherwise exactly one outbound message is appended, and the trimmed body is passed to `sendSMS` for the lead's canonical number. The message is `sent` exactly when a configured client got a non-empty sid back, else `failed`; it carries an id exactly when the provider created the message, and that id is the provider's sid |
| Pipelines.ResolveLead | backend/src/routes/communications.ts:134-145 | the resolved lead has the phone; the table grows by one placeholder lead exactly when no lead had the phone; otherwise it is unchanged and the first lead with the phone is used |
| Pipelines.MarkContacted | backend/src/routes/communications.ts:159-162 | only the status changes, it never moves backwards, it is no longer `new`, and a lead that was not `new` is unchanged |
| Pipelines.Webhook | backend/src/routes/communications.ts:124-203 | a missing or empty `From` or `Body` gets 400 with no change and no send; otherwise the empty TwiML document is returned |
| Pipelines.ReceiveSmsAsWritten | backend/src/routes/communications.ts:181-189 | accepted calls are acknowledged, and a saved auto-reply is always recorded `sent` |
| Pipelines.ReceiveAsWritten | backend/src/routes/communications.ts:147-189 | as written: the ledger keeps its old messages, gains the inbound message `received`, then the reply exactly when the text is answered and the send did not throw; that reply is `sent` with whatever id came back, `null` included |
| Pipelines.ReceiveSms | backend/src/routes/communications.ts:124-203 | a missing or empty `From` or `Body` gets 400 with no change and no send; otherwise the empty TwiML document is returned |
| Pipelines.ReceiveLeads | backend/src/routes/communications.ts:132-162 | a lead holding the sender's canonical number is reused, else exactly one placeholder lead is added (`Unknown`, that number, empty email, fresh id, now `contacted`); stored leads change at most in status, never backwards, and only the one with the number. Holds for the webhook as written and for the corrected one. |
| Pipelines.ReceiveMessages | backend/src/routes/communications.ts:147-194 | the ledger grows by the inbound message, verbatim and `received`, under the canonical number and resolved lead, then by the generated reply exactly when the text is answered and the send did not throw; the reply is dispatched to the same number whenever the text is answered. Holds for the webhook as written and for the corrected one. |
| Pipelines.ReceiveInbound | backend/src/routes/communications.ts:147-162 | the inbound message follows the old ledger, verbatim and `received`, under the canonical number and the resolved lead; that lead holds the number and is no longer `new`. Holds for the webhook as written and for the corrected one. |
| Pipelines.ReceiveReply | backend/src/routes/communications.ts:164-194 | the reply is stored under the resolved lead exactly when the text is answered and the send did not throw, with status `sent` as line 186 writes it, or, corrected, `sent` exactly when an id came back and `failed` otherwise; it carries the returned id; it is passed to `sendSMS` whenever the text is answered. Holds for both recordings. |
| Pipelines.ReceiveLeadTable | backend/src/routes/communications.ts:134-162 | the lead table afterwards is the resolved table with the resolved lead marked contacted. Holds for the webhook as written and for the corrected one. |
| Pipelines.ReceiveKeepsPhonesUnique | backend/src/routes/communications.ts:134-145 | if no two leads shared a phone before the webhook, none do after it. Holds for the webhook as written and for the corrected one. |
| Pipelines.ResolveAgain | backend/src/routes/communications.ts:135 | resolving the same number after a webhook call finds the lead that call resolved to |
| Pipelines.RepeatSenderReusesLead | backend/src/routes/communications.ts:132-156 | a second text from the same canonical number creates no lead and is filed under the first text's lead. Holds for the webhook as written and for the corrected one. |
| Pipelines.SendPreservesWellFormed | backend/src/routes/communications.ts:106-115 | the operator send keeps lead ids unique, every message tied to a stored lead, and every status fitting its direction |
| Pipelines.ReceivePreservesWellFormed | backend/src/routes/communications.ts:132-189 | the webhook keeps lead ids unique, every message tied to a stored lead, and every status fitting its direction. Holds for the webhook as written and for the corrected one. |
| Pipelines.ReceiveNewMessagesFit | backend/src/routes/communications.ts:147-189 | the webhook keeps the old ledger as a prefix, and every message it appends names a stored lead and has a status fitting its direction. Holds for the webhook as written and for the corrected one. |
| Pipelines.WellFormedAfterAppend | backend/src/routes/communications.ts:132-189 | appending messages that name stored leads and fit their direction, after at most one fresh lead was added, keeps a store well formed |
| Pipelines.GrownLeadTable | backend/src/routes/communications.ts:138-144 | adding one lead with a fresh id keeps ids unique and loses none |
| Pipelines.SendAppearsLastInListing | backend/src/routes/communications.ts:106-115 | a message sent strictly later than anything stored is the last entry of the lead's listing, after the listing as it was |
| Pipelines.AsWrittenRecordsUnsentReply | backend/src/routes/communications.ts:172-189 | with no provider client configured, an answered text leaves an outbound reply recorded `sent` with no provider id, while the operator path records the same gateway answer as `failed` |
| Pipelines.ReplyStatusAgreesWithSend | backend/src/routes/communications.ts:172-193 | corrected webhook: a reply is stored exactly when the text is answered and the send did not throw; it is `sent` exactly when a configured client got a non-empty sid back, else `failed` |
| PipelineExamples.UnconfiguredGatewayExample | backend/src/routes/communications.ts:172-189 | `ok thanks` from a new number, with no credentials set, stores a reply marked `sent` although the gateway sent nothing |

## Left out

- Database I/O, Express routing, JSON and XML serialisation, logging, and the `500` responses for storage or cast failures. Handlers are pure functions over a `Store`, and storage never fails.
- Concurrency. Each request is one atomic step. Racing webhooks for the same new number are not modelled. The at-most-one-lead-per-number property is proved for requests applied one after the other.
- Object ids and message ids. Lead ids are natural numbers, and a new lead gets one more than the largest id in use. Messages have no id of their own.
- Timestamps. `createdAt` is a natural number supplied by the caller: one for the operator send, and one each for the inbound message and the auto-reply.
- The property collection. Only the count of available properties reaches the rule engine. The lead's name is passed to `generateAIResponse` but never read there.
- Unicode. Lower-casing affects `A`–`Z` only. `trim` and the regex `\s` use ASCII whitespace. The JavaScript versions also handle non-ASCII letters and spaces.
- Text.ParseNatToString: `parseInt` is exact here. JavaScript loses precision for digit runs beyond 2^53, so the echoed bedroom count for a very long run is not modelled.
- Lead CRUD and operator edits. The property store, the `delivered` status (never written by this code), and read tracking are also left out. `unreadCount` counts inbound messages, as the code does.
- The lead schema's validation of a required email. The webhook's placeholder lead has an empty email, and the model assumes the save succeeds.

## Findings

| source | as written | input that shows it | evidently intended | confidence | as-written member | corrected member |
|---|---|---|---|---|---|---|
| backend/src/routes/communications.ts:181-189 | the auto-reply is saved with `status: 'sent'` whenever `sendSMS` returns, including the `null` it returns when no provider client is configured | webhook `From=555-123-4567`, `Body=ok thanks`, no provider credentials: the ledger gets an outbound reply marked `sent` with no provider id, although nothing was sent | record `sent` only when a message id came back, as the operator send does at line 112 (`twilioMessageId ? 'sent' : 'failed'`) | medium, not executed | Pipelines.ReceiveSmsAsWritten | Pipelines.ReceiveSms |

`Pipelines.AsWrittenRecordsUnsentReply` and
`PipelineExamples.UnconfiguredGatewayExample` exhibit the discrepancy.
`Pipelines.ReplyStatusAgreesWithSend` proves the intended property of the
corrected definition. The two definitions differ only in the
`ReplyRecording` argument passed to `Pipelines.Webhook`, and every other
webhook lemma takes that argument as a parameter, so it holds of both;
`Pipelines.ReceiveAsWritten` spells the ledger out for the code as written.
