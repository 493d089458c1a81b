/** The two write handlers of the communications routes: an operator sending
    a message to a lead, and the SMS provider's webhook delivering an inbound
    message. Each is a function from the store before the request to the
    store after it, together with the HTTP response and the SMS (if any) the
    handler handed to the gateway. */
module Pipelines {
  import opened Common
  import opened Text
  import opened Ledger
  import PhoneFormat
  import Gateway
  import AutoResponse
  import Conversations

  /** An SMS handed to the gateway for delivery. */
  datatype Sms = Sms(to: string, body: string)

  /** A JSON error with its status code, or a successful response carrying
      its payload. */
  datatype Response<T> = Rejected(code: nat, error: string) | Accepted(payload: T)

  datatype Step<T> = Step(response: Response<T>, store: Store, dispatched: Option<Sms>)

  /** The empty TwiML document that acknowledges a webhook call. */
  const EmptyTwiml := "<?xml version=\"1.0\" encoding=\"UTF-8\"?><Response></Response>"

  /** `!body || !body.trim()` fails: the body is missing or only whitespace. */
  predicate HasText(body: Option<string>) {
    body.Some? && Trim(body.value) != ""
  }

  /** What the gateway hands back, and whether the handler counts it as sent. */
  predicate Delivered(cfg: Gateway.Config, reply: Gateway.ProviderReply) {
    Gateway.SendSMS(cfg, reply).Ok? && Gateway.SendSMS(cfg, reply).id != ""
  }

  // ---------------------------------------------------------------------------
  // Operator send

  /** `POST /:leadId/send`. The gateway's answer is an input: `cfg` and
      `reply` determine what `sendSMS` returns or throws. */
  function SendToLead(st: Store, leadId: LeadId, body: Option<string>,
                      cfg: Gateway.Config, reply: Gateway.ProviderReply, now: nat): (r: Step<Message>)
    ensures !HasText(body) ==> r == Step(Rejected(400, "Message body is required"), st, None)
    ensures HasText(body) && FindLead(st.leads, ById(leadId)).None? ==>
      r == Step(Rejected(404, "Lead not found"), st, None)
    ensures r.response.Accepted? <==> HasText(body) && FindLead(st.leads, ById(leadId)).Some?
    ensures r.response.Accepted? ==>
      var m := r.response.payload;
      var lead := st.leads[FindLead(st.leads, ById(leadId)).value];
      && r.store == Store(st.leads, st.messages + [m])
      && r.dispatched == Some(Sms(m.phoneNumber, m.body))
      && m.leadId == leadId
      && m.phoneNumber == PhoneFormat.FormatPhoneNumber(lead.phone)
      && m.direction == Outbound
      && m.body == Trim(body.value)
      && m.createdAt == now
      && (m.status == Sent <==>
            Gateway.HasClient(cfg) && Truthy(cfg.phoneNumber) && reply.Created? && reply.sid != "")
      && (m.status != Sent ==> m.status == Failed)
      && (m.twilioMessageId.Some? <==>
            Gateway.HasClient(cfg) && Truthy(cfg.phoneNumber) && reply.Created?)
      && (m.twilioMessageId.Some? ==> m.twilioMessageId.value == reply.sid)
  {
    if !HasText(body) then Step(Rejected(400, "Message body is required"), st, None)
    else match FindLead(st.leads, ById(leadId))
      case None => Step(Rejected(404, "Lead not found"), st, None)
      case Some(j) =>
        var phone := PhoneFormat.FormatPhoneNumber(st.leads[j].phone);
        var text := Trim(body.value);
        var id := Gateway.ReturnedId(Gateway.SendSMS(cfg, reply));
        var m := Message(st.leads[j].id, phone, Outbound, text, if Truthy(id) then Sent else Failed, id, now);
        Step(Accepted(m), Store(st.leads, st.messages + [m]), Some(Sms(phone, text)))
  }

  // ---------------------------------------------------------------------------
  // Inbound webhook

  /** `findOne({ phone })`, creating a placeholder lead when none matches.
      The placeholder's email is empty although the lead schema marks email
      as required; the model assumes the save succeeds. Yields the lead table
      and the position of the resolved lead. */
  function ResolveLead(leads: seq<Lead>, phone: string): (r: (seq<Lead>, nat))
    ensures r.1 < |r.0| && r.0[r.1].phone == phone
    ensures |leads| <= |r.0| <= |leads| + 1
    ensures r.0[..|leads|] == leads
    ensures |r.0| == |leads| <==> exists j :: 0 <= j < |leads| && leads[j].phone == phone
    ensures |r.0| == |leads| ==> forall j :: 0 <= j < r.1 ==> leads[j].phone != phone
    ensures |r.0| > |leads| ==> r.0[r.1] == Lead(FreshLeadId(leads), "Unknown", phone, "", New)
  {
    match FindLead(leads, ByPhone(phone))
    case Some(j) => (leads, j)
    case None => (leads + [Lead(FreshLeadId(leads), "Unknown", phone, "", New)], |leads|)
  }

  function ResolvedLeadId(leads: seq<Lead>, phone: string): LeadId {
    var resolved := ResolveLead(leads, phone);
    resolved.0[resolved.1].id
  }

  /** The lifecycle step taken on any inbound message: `new` becomes
      `contacted`, every other status stays. */
  function MarkContacted(lead: Lead): (l: Lead)
    ensures l == lead.(status := l.status)
    ensures StatusRank(lead.status) <= StatusRank(l.status)
    ensures l.status != New
    ensures lead.status != New ==> l == lead
  {
    if lead.status == New then lead.(status := Contacted) else lead
  }

  /** How the webhook records the status of the auto-reply it saved. As
      written it is always `sent`; the operator send path, and the corrected
      webhook, record `sent` only when the gateway returned a message id. */
  datatype ReplyRecording = AlwaysSent | SentIfIdReturned

  function ReplyStatus(rec: ReplyRecording, id: Option<string>): DeliveryStatus {
    match rec
    case AlwaysSent => Sent
    case SentIfIdReturned => if Truthy(id) then Sent else Failed
  }

  /** `POST /webhook/sms`, parameterised by how the reply's status is
      recorded. `from`, `body` and `messageSid` are the form fields;
      `propertyCount` is how many properties are available; `cfg` and
      `reply` decide what the gateway does with the auto-reply;
      `receivedAt` and `repliedAt` are the save times of the two messages. */
  function Webhook(st: Store, from: Option<string>, body: Option<string>, messageSid: Option<string>,
                   propertyCount: nat, cfg: Gateway.Config, reply: Gateway.ProviderReply,
                   receivedAt: nat, repliedAt: nat, rec: ReplyRecording): (r: Step<string>)
    ensures !Truthy(from) || !Truthy(body) ==> r == Step(Rejected(400, "Missing required fields"), st, None)
    ensures Truthy(from) && Truthy(body) ==> r.response == Accepted(EmptyTwiml)
  {
    if !Truthy(from) || !Truthy(body) then Step(Rejected(400, "Missing required fields"), st, None)
    else
      var phone := PhoneFormat.FormatPhoneNumber(from.value);
      var resolved := ResolveLead(st.leads, phone);
      var lead := resolved.0[resolved.1];
      var inbound := Message(lead.id, phone, Inbound, body.value, Received, messageSid, receivedAt);
      var leads := resolved.0[resolved.1 := MarkContacted(lead)];
      var logged := st.messages + [inbound];
      if !AutoResponse.ShouldAutoRespond(body.value) then
        Step(Accepted(EmptyTwiml), Store(leads, logged), None)
      else
        var ai := AutoResponse.GenerateAIResponse(body.value, propertyCount);
        if !ai.shouldRespond then Step(Accepted(EmptyTwiml), Store(leads, logged), None)
        else
          var sms := Sms(phone, ai.message);
          match Gateway.SendSMS(cfg, reply)
          case Raises => Step(Accepted(EmptyTwiml), Store(leads, logged), Some(sms))
          case outcome =>
            var id := Gateway.ReturnedId(outcome);
            var answer := Message(lead.id, phone, Outbound, ai.message, ReplyStatus(rec, id), id, repliedAt);
            Step(Accepted(EmptyTwiml), Store(leads, logged + [answer]), Some(sms))
  }

  /** The webhook as written: the saved auto-reply is always `sent`. */
  function ReceiveSmsAsWritten(st: Store, from: Option<string>, body: Option<string>, messageSid: Option<string>,
                               propertyCount: nat, cfg: Gateway.Config, reply: Gateway.ProviderReply,
                               receivedAt: nat, repliedAt: nat): (r: Step<string>)
    ensures Truthy(from) && Truthy(body) ==> r.response == Accepted(EmptyTwiml)
    ensures |r.store.messages| > |st.messages| + 1 ==> r.store.messages[|r.store.messages| - 1].status == Sent
  {
    Webhook(st, from, body, messageSid, propertyCount, cfg, reply, receivedAt, repliedAt, AlwaysSent)
  }

  /** The webhook with the reply's status recorded as the operator path
      records it; the rest of the model uses this definition. */
  function ReceiveSms(st: Store, from: Option<string>, body: Option<string>, messageSid: Option<string>,
                      propertyCount: nat, cfg: Gateway.Config, reply: Gateway.ProviderReply,
                      receivedAt: nat, repliedAt: nat): (r: Step<string>)
    ensures !Truthy(from) || !Truthy(body) ==> r == Step(Rejected(400, "Missing required fields"), st, None)
    ensures Truthy(from) && Truthy(body) ==> r.response == Accepted(EmptyTwiml)
  {
    Webhook(st, from, body, messageSid, propertyCount, cfg, reply, receivedAt, repliedAt, SentIfIdReturned)
  }

  // ---------------------------------------------------------------------------
  // Properties of the webhook
  //
  // Each lemma takes the `ReplyRecording` as a parameter: it holds of the
  // webhook as written (`AlwaysSent`) and of the corrected one alike.

  /** The lead table after an accepted webhook call: a lead already holding
      the sender's canonical number is reused, otherwise exactly one
      placeholder lead is appended; the resolved lead leaves `new`, and no
      other lead changes. */
  lemma ReceiveLeads(st: Store, from: Option<string>, body: Option<string>, messageSid: Option<string>,
                     propertyCount: nat, cfg: Gateway.Config, reply: Gateway.ProviderReply,
                     receivedAt: nat, repliedAt: nat, rec: ReplyRecording)
    requires Truthy(from) && Truthy(body)
    ensures var phone := PhoneFormat.FormatPhoneNumber(from.value);
      var leads := Webhook(st, from, body, messageSid, propertyCount, cfg, reply, receivedAt, repliedAt, rec).store.leads;
      && (|leads| == |st.leads| <==> exists j :: 0 <= j < |st.leads| && st.leads[j].phone == phone)
      && |st.leads| <= |leads| <= |st.leads| + 1
      && (|leads| > |st.leads| ==> leads[|st.leads|] == Lead(FreshLeadId(st.leads), "Unknown", phone, "", Contacted))
      && (forall j :: 0 <= j < |st.leads| ==>
            leads[j] == st.leads[j].(status := leads[j].status)
            && StatusRank(st.leads[j].status) <= StatusRank(leads[j].status))
      && (forall j :: 0 <= j < |st.leads| && st.leads[j].phone != phone ==> leads[j] == st.leads[j])
  {
    var phone := PhoneFormat.FormatPhoneNumber(from.value);
    var resolved := ResolveLead(st.leads, phone);
    var leads := resolved.0[resolved.1 := MarkContacted(resolved.0[resolved.1])];
    assert Webhook(st, from, body, messageSid, propertyCount, cfg, reply, receivedAt, repliedAt, rec).store.leads == leads;
    forall j | 0 <= j < |st.leads|
      ensures leads[j] == st.leads[j].(status := leads[j].status)
      ensures StatusRank(st.leads[j].status) <= StatusRank(leads[j].status)
    {
      assert resolved.0[j] == st.leads[j];
    }
    forall j | 0 <= j < |st.leads| && st.leads[j].phone != phone
      ensures leads[j] == st.leads[j]
    {
      assert resolved.0[j] == st.leads[j];
    }
  }

  /** The ledger after an accepted webhook call: the inbound message, stored
      verbatim under the sender's canonical number and resolved lead, then
      the generated reply exactly when the message asks for one and the
      gateway did not throw. */
  lemma ReceiveMessages(st: Store, from: Option<string>, body: Option<string>, messageSid: Option<string>,
                        propertyCount: nat, cfg: Gateway.Config, reply: Gateway.ProviderReply,
                        receivedAt: nat, repliedAt: nat, rec: ReplyRecording)
    requires Truthy(from) && Truthy(body)
    ensures var phone := PhoneFormat.FormatPhoneNumber(from.value);
      var r := Webhook(st, from, body, messageSid, propertyCount, cfg, reply, receivedAt, repliedAt, rec);
      var n := |st.messages|;
      var outcome := Gateway.SendSMS(cfg, reply);
      var answered := AutoResponse.ShouldAutoRespond(body.value);
      var leadId := ResolvedLeadId(st.leads, phone);
      && |r.store.messages| == n + 1 + (if answered && !outcome.Raises? then 1 else 0)
      && r.store.messages[..n] == st.messages
      && r.store.messages[n] == Message(leadId, phone, Inbound, body.value, Received, messageSid, receivedAt)
      && (|r.store.messages| == n + 2 ==>
            r.store.messages[n + 1] == Message(leadId, phone, Outbound,
              AutoResponse.GenerateAIResponse(body.value, propertyCount).message,
              ReplyStatus(rec, Gateway.ReturnedId(outcome)),
              Gateway.ReturnedId(outcome), repliedAt))
      && r.dispatched == (if answered then Some(Sms(phone, AutoResponse.GenerateAIResponse(body.value, propertyCount).message)) else None)
  {
    ReceiveInbound(st, from, body, messageSid, propertyCount, cfg, reply, receivedAt, repliedAt, rec);
    ReceiveReply(st, from, body, messageSid, propertyCount, cfg, reply, receivedAt, repliedAt, rec);
  }

  /** The inbound half: the message is stored after the old ledger, under the
      resolved lead, which holds the number and is no longer `new`. */
  lemma ReceiveInbound(st: Store, from: Option<string>, body: Option<string>, messageSid: Option<string>,
                       propertyCount: nat, cfg: Gateway.Config, reply: Gateway.ProviderReply,
                       receivedAt: nat, repliedAt: nat, rec: ReplyRecording)
    requires Truthy(from) && Truthy(body)
    ensures var phone := PhoneFormat.FormatPhoneNumber(from.value);
      var r := Webhook(st, from, body, messageSid, propertyCount, cfg, reply, receivedAt, repliedAt, rec);
      var n := |st.messages|;
      var k := ResolveLead(st.leads, phone).1;
      && n < |r.store.messages|
      && r.store.messages[..n] == st.messages
      && r.store.messages[n] == Message(ResolvedLeadId(st.leads, phone), phone, Inbound, body.value, Received, messageSid, receivedAt)
      && k < |r.store.leads|
      && r.store.leads[k].id == ResolvedLeadId(st.leads, phone)
      && r.store.leads[k].phone == phone
      && r.store.leads[k].status != New
  {
    var phone := PhoneFormat.FormatPhoneNumber(from.value);
    var resolved := ResolveLead(st.leads, phone);
    var k := resolved.1;
    var leads := resolved.0[k := MarkContacted(resolved.0[k])];
    var r := Webhook(st, from, body, messageSid, propertyCount, cfg, reply, receivedAt, repliedAt, rec);
    assert r.store.leads == leads;
  }

  /** The reply half: the generated reply is stored, under the resolved lead,
      exactly when the text is answered and the send did not throw, and it is
      dispatched whenever the text is answered. */
  lemma ReceiveReply(st: Store, from: Option<string>, body: Option<string>, messageSid: Option<string>,
                     propertyCount: nat, cfg: Gateway.Config, reply: Gateway.ProviderReply,
                     receivedAt: nat, repliedAt: nat, rec: ReplyRecording)
    requires Truthy(from) && Truthy(body)
    ensures var phone := PhoneFormat.FormatPhoneNumber(from.value);
      var r := Webhook(st, from, body, messageSid, propertyCount, cfg, reply, receivedAt, repliedAt, rec);
      var n := |st.messages|;
      var outcome := Gateway.SendSMS(cfg, reply);
      var answered := AutoResponse.ShouldAutoRespond(body.value);
      && |r.store.messages| == n + 1 + (if answered && !outcome.Raises? then 1 else 0)
      && (|r.store.messages| == n + 2 ==>
            r.store.messages[n + 1] == Message(ResolvedLeadId(st.leads, phone), phone, Outbound,
              AutoResponse.GenerateAIResponse(body.value, propertyCount).message,
              ReplyStatus(rec, Gateway.ReturnedId(outcome)),
              Gateway.ReturnedId(outcome), repliedAt))
      && r.dispatched == (if answered then Some(Sms(phone, AutoResponse.GenerateAIResponse(body.value, propertyCount).message)) else None)
  {
  }

  /** A phone number keeps naming at most one lead: the webhook only
      creates a lead for a number no lead has. */
  lemma ReceiveKeepsPhonesUnique(st: Store, from: Option<string>, body: Option<string>, messageSid: Option<string>,
                                 propertyCount: nat, cfg: Gateway.Config, reply: Gateway.ProviderReply,
                                 receivedAt: nat, repliedAt: nat, rec: ReplyRecording)
    requires UniquePhones(st.leads)
    ensures UniquePhones(Webhook(st, from, body, messageSid, propertyCount, cfg, reply, receivedAt, repliedAt, rec).store.leads)
  {
    if Truthy(from) && Truthy(body) {
      ReceiveLeads(st, from, body, messageSid, propertyCount, cfg, reply, receivedAt, repliedAt, rec);
    }
  }

  /** A second message from the same number, however it is spelled, is filed
      under the lead the first one resolved to and creates no lead. */
  lemma RepeatSenderReusesLead(st: Store, from1: Option<string>, body1: Option<string>, sid1: Option<string>,
                               from2: Option<string>, body2: Option<string>, sid2: Option<string>,
                               propertyCount: nat, cfg: Gateway.Config, reply: Gateway.ProviderReply,
                               t1: nat, t2: nat, t3: nat, t4: nat, rec: ReplyRecording)
    requires Truthy(from1) && Truthy(body1) && Truthy(from2) && Truthy(body2)
    requires PhoneFormat.FormatPhoneNumber(from1.value) == PhoneFormat.FormatPhoneNumber(from2.value)
    ensures var st1 := Webhook(st, from1, body1, sid1, propertyCount, cfg, reply, t1, t2, rec).store;
      var st2 := Webhook(st1, from2, body2, sid2, propertyCount, cfg, reply, t3, t4, rec).store;
      && |st2.leads| == |st1.leads|
      && st2.messages[|st1.messages|].leadId == st1.messages[|st.messages|].leadId
  {
    var phone := PhoneFormat.FormatPhoneNumber(from1.value);
    var st1 := Webhook(st, from1, body1, sid1, propertyCount, cfg, reply, t1, t2, rec).store;
    ReceiveLeadTable(st, from1, body1, sid1, propertyCount, cfg, reply, t1, t2, rec);
    ReceiveLeadTable(st1, from2, body2, sid2, propertyCount, cfg, reply, t3, t4, rec);
    ReceiveInbound(st, from1, body1, sid1, propertyCount, cfg, reply, t1, t2, rec);
    ReceiveInbound(st1, from2, body2, sid2, propertyCount, cfg, reply, t3, t4, rec);
    ResolveAgain(st.leads, phone);
  }

  /** The lead table after an accepted webhook call is the resolved table
      with the resolved lead marked contacted. */
  lemma ReceiveLeadTable(st: Store, from: Option<string>, body: Option<string>, messageSid: Option<string>,
                         propertyCount: nat, cfg: Gateway.Config, reply: Gateway.ProviderReply,
                         receivedAt: nat, repliedAt: nat, rec: ReplyRecording)
    requires Truthy(from) && Truthy(body)
    ensures var resolved := ResolveLead(st.leads, PhoneFormat.FormatPhoneNumber(from.value));
      Webhook(st, from, body, messageSid, propertyCount, cfg, reply, receivedAt, repliedAt, rec).store.leads
        == resolved.0[resolved.1 := MarkContacted(resolved.0[resolved.1])]
  {
  }

  /** After a webhook call, resolving the same number again finds the lead
      the call resolved to, in the same place. */
  lemma ResolveAgain(leads: seq<Lead>, phone: string)
    ensures var resolved := ResolveLead(leads, phone);
      var marked := resolved.0[resolved.1 := MarkContacted(resolved.0[resolved.1])];
      ResolveLead(marked, phone) == (marked, resolved.1)
  {
    var resolved := ResolveLead(leads, phone);
    var marked := resolved.0[resolved.1 := MarkContacted(resolved.0[resolved.1])];
    match FindLead(marked, ByPhone(phone))
    case None =>
      assert LeadMatches(marked[resolved.1], ByPhone(phone));
    case Some(j) =>
      if j > resolved.1 {
        assert LeadMatches(marked[resolved.1], ByPhone(phone));
      }
  }

  // ---------------------------------------------------------------------------
  // Both handlers keep the store well formed

  lemma SendPreservesWellFormed(st: Store, leadId: LeadId, body: Option<string>,
                                cfg: Gateway.Config, reply: Gateway.ProviderReply, now: nat)
    requires WellFormed(st)
    ensures WellFormed(SendToLead(st, leadId, body, cfg, reply, now).store)
  {
    var r := SendToLead(st, leadId, body, cfg, reply, now);
    if r.response.Accepted? {
      var j := FindLead(st.leads, ById(leadId)).value;
      assert r.response.payload.leadId == st.leads[j].id;
      assert st.leads[j].id in LeadIds(st.leads);
    }
  }

  lemma ReceivePreservesWellFormed(st: Store, from: Option<string>, body: Option<string>, messageSid: Option<string>,
                                   propertyCount: nat, cfg: Gateway.Config, reply: Gateway.ProviderReply,
                                   receivedAt: nat, repliedAt: nat, rec: ReplyRecording)
    requires WellFormed(st)
    ensures WellFormed(Webhook(st, from, body, messageSid, propertyCount, cfg, reply, receivedAt, repliedAt, rec).store)
  {
    if Truthy(from) && Truthy(body) {
      ReceiveLeads(st, from, body, messageSid, propertyCount, cfg, reply, receivedAt, repliedAt, rec);
      ReceiveNewMessagesFit(st, from, body, messageSid, propertyCount, cfg, reply, receivedAt, repliedAt, rec);
      WellFormedAfterAppend(st, Webhook(st, from, body, messageSid, propertyCount, cfg, reply, receivedAt, repliedAt, rec).store);
    }
  }

  /** The messages an accepted webhook call appends name a stored lead and
      carry a status that fits their direction. */
  lemma ReceiveNewMessagesFit(st: Store, from: Option<string>, body: Option<string>, messageSid: Option<string>,
                              propertyCount: nat, cfg: Gateway.Config, reply: Gateway.ProviderReply,
                              receivedAt: nat, repliedAt: nat, rec: ReplyRecording)
    requires Truthy(from) && Truthy(body)
    ensures var after := Webhook(st, from, body, messageSid, propertyCount, cfg, reply, receivedAt, repliedAt, rec).store;
      && |st.messages| <= |after.messages|
      && after.messages[..|st.messages|] == st.messages
      && forall i :: |st.messages| <= i < |after.messages| ==>
           after.messages[i].leadId in LeadIds(after.leads) && StatusFitsDirection(after.messages[i])
  {
    var after := Webhook(st, from, body, messageSid, propertyCount, cfg, reply, receivedAt, repliedAt, rec).store;
    ReceiveInbound(st, from, body, messageSid, propertyCount, cfg, reply, receivedAt, repliedAt, rec);
    ReceiveReply(st, from, body, messageSid, propertyCount, cfg, reply, receivedAt, repliedAt, rec);
    var k := ResolveLead(st.leads, PhoneFormat.FormatPhoneNumber(from.value)).1;
    assert after.leads[k].id in LeadIds(after.leads);
    forall i | |st.messages| <= i < |after.messages|
      ensures after.messages[i].leadId in LeadIds(after.leads) && StatusFitsDirection(after.messages[i])
    {
    }
  }

  /** Appending messages that name stored leads and fit their direction to a
      well-formed store whose lead table grew by at most a fresh lead keeps
      it well formed. */
  lemma WellFormedAfterAppend(st: Store, after: Store)
    requires WellFormed(st)
    requires |st.leads| <= |after.leads| <= |st.leads| + 1
    requires forall j :: 0 <= j < |st.leads| ==> after.leads[j].id == st.leads[j].id
    requires |after.leads| > |st.leads| ==> after.leads[|st.leads|].id == FreshLeadId(st.leads)
    requires |st.messages| <= |after.messages| && after.messages[..|st.messages|] == st.messages
    requires forall i :: |st.messages| <= i < |after.messages| ==>
               after.messages[i].leadId in LeadIds(after.leads) && StatusFitsDirection(after.messages[i])
    ensures WellFormed(after)
  {
    GrownLeadTable(st.leads, after.leads);
    forall i | 0 <= i < |st.messages|
      ensures after.messages[i].leadId in LeadIds(after.leads) && StatusFitsDirection(after.messages[i])
    {
      assert after.messages[i] == st.messages[i];
    }
  }

  /** A lead table that keeps every old id in place and adds at most one
      fresh lead keeps ids unique and loses none. */
  lemma GrownLeadTable(leads: seq<Lead>, grown: seq<Lead>)
    requires UniqueLeadIds(leads)
    requires |leads| <= |grown| <= |leads| + 1
    requires forall j :: 0 <= j < |leads| ==> grown[j].id == leads[j].id
    requires |grown| > |leads| ==> grown[|leads|].id == FreshLeadId(leads)
    ensures UniqueLeadIds(grown)
    ensures LeadIds(leads) <= LeadIds(grown)
  {
    forall j | 0 <= j < |leads|
      ensures leads[j].id in LeadIds(grown)
    {
      assert grown[j].id == leads[j].id;
    }
  }

  // ---------------------------------------------------------------------------
  // The listing sees the new message

  /** A message sent strictly later than everything stored is the last entry
      of the lead's listing, after the listing as it was. */
  lemma SendAppearsLastInListing(st: Store, leadId: LeadId, body: Option<string>,
                                 cfg: Gateway.Config, reply: Gateway.ProviderReply, now: nat)
    requires Conversations.AllBefore(st.messages, now)
    ensures var r := SendToLead(st, leadId, body, cfg, reply, now);
      r.response.Accepted? ==>
        Conversations.MessagesForLead(r.store, leadId)
          == Conversations.MessagesForLead(st, leadId) + [r.response.payload]
  {
    var r := SendToLead(st, leadId, body, cfg, reply, now);
    if r.response.Accepted? {
      var m := r.response.payload;
      var f := Conversations.ForLead(leadId);
      Conversations.SelectAppend(st.messages, [m], f);
      Conversations.SelectBound(st.messages, f, now);
      assert Conversations.Select([m], f) == [m];
      Conversations.SortAppendLatest(Conversations.Select(st.messages, f), m);
    }
  }

  // ---------------------------------------------------------------------------
  // The auto-reply's recorded status

  /** As written, an auto-reply the gateway never sent, because no client is
      configured, is stored as `sent` with no provider id, while the operator
      path records the same gateway answer as `failed`. */
  lemma AsWrittenRecordsUnsentReply(st: Store, from: Option<string>, body: Option<string>, messageSid: Option<string>,
                                    propertyCount: nat, cfg: Gateway.Config, reply: Gateway.ProviderReply,
                                    receivedAt: nat, repliedAt: nat, leadId: LeadId)
    requires Truthy(from) && Truthy(body) && AutoResponse.ShouldAutoRespond(body.value)
    requires !Gateway.HasClient(cfg)
    ensures var after := ReceiveSmsAsWritten(st, from, body, messageSid, propertyCount, cfg, reply, receivedAt, repliedAt).store;
      && |after.messages| == |st.messages| + 2
      && after.messages[|st.messages| + 1].direction == Outbound
      && after.messages[|st.messages| + 1].status == Sent
      && after.messages[|st.messages| + 1].twilioMessageId == None
    ensures var sent := SendToLead(st, leadId, body, cfg, reply, receivedAt);
      sent.response.Accepted? ==> sent.response.payload.status == Failed
  {
  }

  /** The webhook as written: after an accepted call the ledger holds the
      inbound message and then, exactly when the text is answered and the send
      did not throw, the reply recorded `sent` with whatever id came back. */
  lemma ReceiveAsWritten(st: Store, from: Option<string>, body: Option<string>, messageSid: Option<string>,
                         propertyCount: nat, cfg: Gateway.Config, reply: Gateway.ProviderReply,
                         receivedAt: nat, repliedAt: nat)
    requires Truthy(from) && Truthy(body)
    ensures var after := ReceiveSmsAsWritten(st, from, body, messageSid, propertyCount, cfg, reply, receivedAt, repliedAt).store;
      var n := |st.messages|;
      var outcome := Gateway.SendSMS(cfg, reply);
      && |after.messages| == n + 1 + (if AutoResponse.ShouldAutoRespond(body.value) && !outcome.Raises? then 1 else 0)
      && after.messages[..n] == st.messages
      && after.messages[n].direction == Inbound
      && after.messages[n].status == Received
      && (|after.messages| == n + 2 ==>
            && after.messages[n + 1].direction == Outbound
            && after.messages[n + 1].status == Sent
            && after.messages[n + 1].twilioMessageId == Gateway.ReturnedId(outcome))
  {
    ReceiveMessages(st, from, body, messageSid, propertyCount, cfg, reply, receivedAt, repliedAt, AlwaysSent);
  }

  /** With the correction, the webhook records an auto-reply as `sent` exactly
      when the operator path would record the same gateway answer as `sent`:
      when a client is configured and the provider returned a non-empty id. */
  lemma ReplyStatusAgreesWithSend(st: Store, from: Option<string>, body: Option<string>, messageSid: Option<string>,
                                  propertyCount: nat, cfg: Gateway.Config, reply: Gateway.ProviderReply,
                                  receivedAt: nat, repliedAt: nat)
    requires Truthy(from) && Truthy(body)
    ensures var after := ReceiveSms(st, from, body, messageSid, propertyCount, cfg, reply, receivedAt, repliedAt).store;
      var n := |st.messages|;
      && (|after.messages| == n + 2 <==> AutoResponse.ShouldAutoRespond(body.value) && !Gateway.SendSMS(cfg, reply).Raises?)
      && (|after.messages| == n + 2 ==>
            (after.messages[n + 1].status == Sent <==>
               Gateway.HasClient(cfg) && Truthy(cfg.phoneNumber) && reply.Created? && reply.sid != "")
            && (after.messages[n + 1].status != Sent ==> after.messages[n + 1].status == Failed))
  {
    ReceiveMessages(st, from, body, messageSid, propertyCount, cfg, reply, receivedAt, repliedAt, SentIfIdReturned);
  }
}
