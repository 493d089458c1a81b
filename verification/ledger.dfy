/** The stored records the SMS engine reads and writes: leads and the message
    ledger. The database is an immutable value; each request handler maps one
    value to the next. */
module Ledger {
  import opened Common

  type LeadId = nat

  datatype Direction = Inbound | Outbound

  datatype DeliveryStatus = Sent | Delivered | Failed | Received

  datatype LeadStatus = New | Contacted | Qualified | Converted

  /** A lead; the optional interest and notes fields play no part here. */
  datatype Lead = Lead(id: LeadId, name: string, phone: string, email: string, status: LeadStatus)

  /** One stored SMS. `createdAt` is the time the record was saved. */
  datatype Message = Message(
    leadId: LeadId,
    phoneNumber: string,
    direction: Direction,
    body: string,
    status: DeliveryStatus,
    twilioMessageId: Option<string>,
    createdAt: nat)

  datatype Store = Store(leads: seq<Lead>, messages: seq<Message>)

  /** How far a lead has progressed; the lifecycle only moves up this scale
      except by operator edits. */
  function StatusRank(s: LeadStatus): nat {
    match s
    case New => 0
    case Contacted => 1
    case Qualified => 2
    case Converted => 3
  }

  // ---------------------------------------------------------------------------
  // Lead lookup

  /** The two ways a lead is looked up: `findById` and `findOne({ phone })`. */
  datatype LeadKey = ById(id: LeadId) | ByPhone(phone: string)

  predicate LeadMatches(l: Lead, key: LeadKey) {
    match key
    case ById(id) => l.id == id
    case ByPhone(phone) => l.phone == phone
  }

  /** The position of the first lead matching the key, in storage order. */
  function FindLead(leads: seq<Lead>, key: LeadKey): (r: Option<nat>)
    ensures r.Some? ==> r.value < |leads| && LeadMatches(leads[r.value], key)
    ensures r.Some? ==> forall j :: 0 <= j < r.value ==> !LeadMatches(leads[j], key)
    ensures r.None? <==> forall j :: 0 <= j < |leads| ==> !LeadMatches(leads[j], key)
  {
    if leads == [] then None
    else if LeadMatches(leads[0], key) then Some(0)
    else match FindLead(leads[1..], key)
      case None => None
      case Some(i) => Some(i + 1)
  }

  /** An id no stored lead has: one more than the largest in use. */
  function FreshLeadId(leads: seq<Lead>): (r: LeadId)
    ensures forall j :: 0 <= j < |leads| ==> leads[j].id < r
  {
    if leads == [] then 0
    else
      var rest := FreshLeadId(leads[1..]);
      if leads[0].id < rest then rest else leads[0].id + 1
  }

  function LeadIds(leads: seq<Lead>): set<LeadId> {
    set j | 0 <= j < |leads| :: leads[j].id
  }

  // ---------------------------------------------------------------------------
  // Well-formed stores

  /** No two leads share a phone number: the key inbound messages are
      matched on. */
  predicate UniquePhones(leads: seq<Lead>) {
    forall i, j :: 0 <= i < j < |leads| ==> leads[i].phone != leads[j].phone
  }

  predicate UniqueLeadIds(leads: seq<Lead>) {
    forall i, j :: 0 <= i < j < |leads| ==> leads[i].id != leads[j].id
  }

  /** Inbound messages are `received`; outbound ones are `sent` or `failed`. */
  predicate StatusFitsDirection(m: Message) {
    match m.direction
    case Inbound => m.status == Received
    case Outbound => m.status == Sent || m.status == Failed
  }

  /** What the request handlers keep true of the store: lead ids are unique,
      every message names a stored lead, and every message's status fits its
      direction. */
  predicate WellFormed(st: Store) {
    && UniqueLeadIds(st.leads)
    && (forall i :: 0 <= i < |st.messages| ==> st.messages[i].leadId in LeadIds(st.leads))
    && (forall i :: 0 <= i < |st.messages| ==> StatusFitsDirection(st.messages[i]))
  }
}
