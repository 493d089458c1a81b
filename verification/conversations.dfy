/** The read side of the message ledger: the per-lead conversation summary
    and the two chronological listings (by lead and by phone number). */
module Conversations {
  import opened Common
  import opened Ledger
  import PhoneFormat

  // ---------------------------------------------------------------------------
  // Filtering the ledger

  /** The selections the read handlers make: messages of one lead, messages
      stored under one phone number, and inbound messages. */
  datatype MessageFilter = ForLead(id: LeadId) | ForPhone(phone: string) | IsInbound

  predicate MessageMatches(m: Message, f: MessageFilter) {
    match f
    case ForLead(id) => m.leadId == id
    case ForPhone(phone) => m.phoneNumber == phone
    case IsInbound => m.direction == Inbound
  }

  /** The matching messages, in ledger order. */
  function Select(msgs: seq<Message>, f: MessageFilter): (r: seq<Message>)
    ensures |r| <= |msgs|
    ensures forall i :: 0 <= i < |r| ==> MessageMatches(r[i], f)
  {
    if msgs == [] then []
    else
      var last := msgs[|msgs| - 1];
      Select(msgs[..|msgs| - 1], f) + (if MessageMatches(last, f) then [last] else [])
  }

  /** Every matching message keeps its multiplicity and nothing else is
      kept. */
  lemma {:induction false} SelectCounts(msgs: seq<Message>, f: MessageFilter)
    ensures forall m :: multiset(Select(msgs, f))[m] == if MessageMatches(m, f) then multiset(msgs)[m] else 0
    decreases |msgs|
  {
    if msgs != [] {
      var init := msgs[..|msgs| - 1];
      var last := msgs[|msgs| - 1];
      assert msgs == init + [last];
      SelectCounts(init, f);
    }
  }

  /** The selection is empty exactly when no message matches. */
  lemma {:induction false} SelectEmptyIff(msgs: seq<Message>, f: MessageFilter)
    ensures Select(msgs, f) == [] <==> forall i :: 0 <= i < |msgs| ==> !MessageMatches(msgs[i], f)
    decreases |msgs|
  {
    if msgs != [] {
      var init := msgs[..|msgs| - 1];
      SelectEmptyIff(init, f);
      assert forall i :: 0 <= i < |init| ==> msgs[i] == init[i];
    }
  }

  /** Membership form of `SelectCounts`: the matching messages are selected
      and nothing from outside the ledger is. */
  lemma SelectMembers(msgs: seq<Message>, f: MessageFilter)
    ensures forall i :: 0 <= i < |msgs| && MessageMatches(msgs[i], f) ==> msgs[i] in Select(msgs, f)
    ensures forall m :: m in Select(msgs, f) ==> m in msgs
  {
    var r := Select(msgs, f);
    SelectCounts(msgs, f);
    forall i | 0 <= i < |msgs| && MessageMatches(msgs[i], f)
      ensures msgs[i] in r
    {
      assert multiset(r)[msgs[i]] == multiset(msgs)[msgs[i]];
    }
    forall m | m in r
      ensures m in msgs
    {
      assert multiset(r)[m] > 0;
    }
  }

  lemma {:induction false} SelectAppend(a: seq<Message>, b: seq<Message>, f: MessageFilter)
    ensures Select(a + b, f) == Select(a, f) + Select(b, f)
    decreases |b|
  {
    if b == [] {
      assert a + b == a;
    } else {
      var init := b[..|b| - 1];
      var last := b[|b| - 1];
      var tail := if MessageMatches(last, f) then [last] else [];
      assert (a + b)[..|a + b| - 1] == a + init;
      assert (a + b)[|a + b| - 1] == last;
      assert Select(a + b, f) == Select(a + init, f) + tail;
      SelectAppend(a, init, f);
      assert Select(b, f) == Select(init, f) + tail;
    }
  }

  /** Selecting twice does not depend on the order of the two selections. */
  lemma {:induction false} SelectCommutes(msgs: seq<Message>, f: MessageFilter, g: MessageFilter)
    ensures Select(Select(msgs, f), g) == Select(Select(msgs, g), f)
    decreases |msgs|
  {
    if msgs != [] {
      var init := msgs[..|msgs| - 1];
      var last := msgs[|msgs| - 1];
      SelectCommutes(init, f, g);
      SelectAppend(Select(init, f), if MessageMatches(last, f) then [last] else [], g);
      SelectAppend(Select(init, g), if MessageMatches(last, g) then [last] else [], f);
    }
  }

  // ---------------------------------------------------------------------------
  // Chronological order

  predicate SortedByTime(s: seq<Message>) {
    forall i, j :: 0 <= i < j < |s| ==> s[i].createdAt <= s[j].createdAt
  }

  predicate AllAtMost(s: seq<Message>, bound: nat) {
    forall i :: 0 <= i < |s| ==> s[i].createdAt <= bound
  }

  /** A permutation keeps every bound its elements had. */
  lemma BoundOfPermutation(r: seq<Message>, s: seq<Message>, x: Message, bound: nat)
    requires multiset(r) == multiset(s) + multiset{x}
    requires AllAtMost(s, bound) && x.createdAt <= bound
    ensures AllAtMost(r, bound)
  {
    forall i | 0 <= i < |r|
      ensures r[i].createdAt <= bound
    {
      assert r[i] in multiset(r);
      if r[i] != x {
        assert r[i] in s;
        var k :| 0 <= k < |s| && s[k] == r[i];
      }
    }
  }

  /** Every message strictly older than `bound`. */
  predicate AllBefore(s: seq<Message>, bound: nat) {
    forall i :: 0 <= i < |s| ==> s[i].createdAt < bound
  }

  /** A selection keeps every strict bound the ledger had. */
  lemma SelectBound(msgs: seq<Message>, f: MessageFilter, bound: nat)
    requires AllBefore(msgs, bound)
    ensures AllBefore(Select(msgs, f), bound)
  {
    var r := Select(msgs, f);
    SelectMembers(msgs, f);
    forall i | 0 <= i < |r|
      ensures r[i].createdAt < bound
    {
      assert r[i] in r;
    }
  }

  /** Places `x` after every element not later than it. */
  function InsertByTime(s: seq<Message>, x: Message): (r: seq<Message>)
    requires SortedByTime(s)
    ensures SortedByTime(r)
    ensures multiset(r) == multiset(s) + multiset{x}
    decreases |s|
  {
    if s == [] || s[|s| - 1].createdAt <= x.createdAt then
      SortedUpToLast(s, x.createdAt);
      SortedSnoc(s, x);
      s + [x]
    else
      var init := s[..|s| - 1];
      var last := s[|s| - 1];
      assert s == init + [last];
      SortedInit(s);
      var r := InsertByTime(init, x);
      BoundOfPermutation(r, init, x, last.createdAt);
      SortedSnoc(r, last);
      assert multiset(r + [last]) == multiset(r) + multiset{last};
      r + [last]
  }

  /** Appending a message not earlier than any element keeps the list sorted. */
  lemma SortedSnoc(s: seq<Message>, y: Message)
    requires SortedByTime(s) && AllAtMost(s, y.createdAt)
    ensures SortedByTime(s + [y])
  {
    var t := s + [y];
    assert forall i :: 0 <= i < |s| ==> t[i] == s[i];
  }

  /** In a sorted list every element is bounded by the last one. */
  lemma SortedUpToLast(s: seq<Message>, bound: nat)
    requires SortedByTime(s)
    requires s != [] ==> s[|s| - 1].createdAt <= bound
    ensures AllAtMost(s, bound)
  {
  }

  /** Dropping the last message of a sorted list leaves a sorted list bounded
      by that message. */
  lemma SortedInit(s: seq<Message>)
    requires SortedByTime(s) && s != []
    ensures SortedByTime(s[..|s| - 1]) && AllAtMost(s[..|s| - 1], s[|s| - 1].createdAt)
  {
  }

  /** `.sort({ createdAt: 1 })`: the same messages, oldest first. Messages
      with equal timestamps may come out in any order the database likes;
      this definition happens to keep ledger order, but no lemma relies on
      it. */
  function SortByTime(s: seq<Message>): (r: seq<Message>)
    ensures SortedByTime(r)
    ensures multiset(r) == multiset(s)
  {
    if s == [] then []
    else
      var init := s[..|s| - 1];
      assert s == init + [s[|s| - 1]];
      InsertByTime(SortByTime(init), s[|s| - 1])
  }

  /** A message saved strictly later than everything already there comes
      last, whatever order equal timestamps are put in. */
  lemma SortAppendLatest(s: seq<Message>, m: Message)
    requires AllBefore(s, m.createdAt)
    ensures SortByTime(s + [m]) == SortByTime(s) + [m]
  {
    assert AllAtMost(s, m.createdAt);
    var t := s + [m];
    assert t[..|t| - 1] == s;
    var sorted := SortByTime(s);
    if sorted != [] {
      assert sorted[|sorted| - 1] in multiset(s);
    }
  }

  // ---------------------------------------------------------------------------
  // Listings

  /** `GET /:leadId/messages`: the lead's messages, oldest first. */
  function MessagesForLead(st: Store, leadId: LeadId): (r: seq<Message>)
    ensures SortedByTime(r)
    ensures forall m :: multiset(r)[m] == if m.leadId == leadId then multiset(st.messages)[m] else 0
  {
    SelectCounts(st.messages, ForLead(leadId));
    SortByTime(Select(st.messages, ForLead(leadId)))
  }

  /** `GET /conversation/:phoneNumber`: the messages stored under the
      canonical form of the given number, oldest first. */
  function MessagesForPhone(st: Store, phone: string): (r: seq<Message>)
    ensures SortedByTime(r)
    ensures forall m :: (multiset(r)[m] ==
      if m.phoneNumber == PhoneFormat.FormatPhoneNumber(phone) then multiset(st.messages)[m] else 0)
  {
    SelectCounts(st.messages, ForPhone(PhoneFormat.FormatPhoneNumber(phone)));
    SortByTime(Select(st.messages, ForPhone(PhoneFormat.FormatPhoneNumber(phone))))
  }

  /** Any spelling of a number that canonicalises the same way lists the same
      conversation. */
  lemma PhoneListingIgnoresSpelling(st: Store, a: string, b: string)
    requires PhoneFormat.StripNonDigits(a) == PhoneFormat.StripNonDigits(b)
    ensures MessagesForPhone(st, a) == MessagesForPhone(st, b)
  {
  }

  // ---------------------------------------------------------------------------
  // Conversation summary

  predicate Distinct(ids: seq<LeadId>) {
    forall i, j :: 0 <= i < j < |ids| ==> ids[i] != ids[j]
  }

  /** The leads that have at least one message, each once, in order of their
      first message in the ledger. */
  function LeadsWithMessages(msgs: seq<Message>): (ids: seq<LeadId>)
    ensures Distinct(ids)
    ensures forall i :: 0 <= i < |msgs| ==> msgs[i].leadId in ids
    ensures forall k :: 0 <= k < |ids| ==> exists i :: 0 <= i < |msgs| && msgs[i].leadId == ids[k]
  {
    if msgs == [] then []
    else
      var init := msgs[..|msgs| - 1];
      var last := msgs[|msgs| - 1];
      var ids := LeadsWithMessages(init);
      assert forall i :: 0 <= i < |init| ==> msgs[i] == init[i];
      if last.leadId in ids then ids else ids + [last.leadId]
  }

  /** One message of the list with the largest timestamp. */
  function Latest(msgs: seq<Message>): (m: Message)
    requires msgs != []
    ensures m in msgs
    ensures forall i :: 0 <= i < |msgs| ==> msgs[i].createdAt <= m.createdAt
  {
    if |msgs| == 1 then msgs[0]
    else
      var rest := Latest(msgs[1..]);
      assert forall i :: 1 <= i < |msgs| ==> msgs[i] == msgs[1..][i - 1];
      if rest.createdAt <= msgs[0].createdAt then msgs[0] else rest
  }

  /** `lead?.name || 'Unknown'`: a missing lead and an empty name both read
      as "Unknown". */
  function LeadName(leads: seq<Lead>, id: LeadId): (name: string)
    ensures FindLead(leads, ById(id)).None? ==> name == "Unknown"
    ensures FindLead(leads, ById(id)).Some? ==>
      var lead := leads[FindLead(leads, ById(id)).value];
      name == if lead.name == "" then "Unknown" else lead.name
  {
    match FindLead(leads, ById(id))
    case None => "Unknown"
    case Some(j) => if leads[j].name == "" then "Unknown" else leads[j].name
  }

  datatype ConversationSummary = ConversationSummary(
    leadId: LeadId,
    leadName: string,
    phoneNumber: string,
    lastMessage: string,
    lastMessageTime: nat,
    messageCount: nat,
    unreadCount: nat)

  predicate HasMessages(msgs: seq<Message>, id: LeadId) {
    exists i :: 0 <= i < |msgs| && msgs[i].leadId == id
  }

  /** One group of the aggregation: the lead's latest message supplies the
      body, time and phone number; the counts cover all its messages and its
      inbound ones. */
  function Summarize(leads: seq<Lead>, msgs: seq<Message>, id: LeadId): (c: ConversationSummary)
    requires HasMessages(msgs, id)
    ensures c.leadId == id
    ensures c.leadName == LeadName(leads, id)
    ensures exists i :: (0 <= i < |msgs| && msgs[i].leadId == id
      && c.lastMessage == msgs[i].body
      && c.lastMessageTime == msgs[i].createdAt
      && c.phoneNumber == msgs[i].phoneNumber)
    ensures forall i :: 0 <= i < |msgs| && msgs[i].leadId == id ==> msgs[i].createdAt <= c.lastMessageTime
    ensures c.messageCount == |Select(msgs, ForLead(id))|
    ensures c.unreadCount == |Select(Select(msgs, ForLead(id)), IsInbound)|
    ensures 1 <= c.messageCount <= |msgs|
    ensures c.unreadCount <= c.messageCount
    ensures c.unreadCount == 0 <==>
      forall i :: 0 <= i < |msgs| && msgs[i].leadId == id ==> msgs[i].direction != Inbound
  {
    var thread := Select(msgs, ForLead(id));
    var unread := Select(thread, IsInbound);
    SelectMembers(msgs, ForLead(id));
    UnreadIff(msgs, id);
    var w :| 0 <= w < |msgs| && msgs[w].leadId == id;
    assert msgs[w] in thread;
    var last := Latest(thread);
    assert last in msgs;
    ConversationSummary(id, LeadName(leads, id), last.phoneNumber, last.body, last.createdAt,
                        |thread|, |unread|)
  }

  /** A lead's thread has no inbound message exactly when none of the lead's
      messages is inbound. */
  lemma UnreadIff(msgs: seq<Message>, id: LeadId)
    ensures Select(Select(msgs, ForLead(id)), IsInbound) == [] <==>
      forall i :: 0 <= i < |msgs| && msgs[i].leadId == id ==> msgs[i].direction != Inbound
  {
    var thread := Select(msgs, ForLead(id));
    SelectMembers(msgs, ForLead(id));
    SelectEmptyIff(thread, IsInbound);
    if Select(thread, IsInbound) == [] {
      forall i | 0 <= i < |msgs| && msgs[i].leadId == id
        ensures msgs[i].direction != Inbound
      {
        assert msgs[i] in thread;
        var j :| 0 <= j < |thread| && thread[j] == msgs[i];
      }
    } else {
      var j :| 0 <= j < |thread| && MessageMatches(thread[j], IsInbound);
      assert thread[j] in thread;
      var i :| 0 <= i < |msgs| && msgs[i] == thread[j];
      assert MessageMatches(thread[j], ForLead(id));
    }
  }


  function Summaries(leads: seq<Lead>, msgs: seq<Message>, ids: seq<LeadId>): (r: seq<ConversationSummary>)
    requires forall k :: 0 <= k < |ids| ==> HasMessages(msgs, ids[k])
    ensures |r| == |ids|
    ensures forall k :: 0 <= k < |ids| ==> r[k].leadId == ids[k]
    ensures forall k :: 0 <= k < |ids| ==> r[k] == Summarize(leads, msgs, ids[k])
  {
    if ids == [] then []
    else
      var rest := ids[1..];
      assert forall k :: 0 <= k < |rest| ==> rest[k] == ids[k + 1];
      var tail := Summaries(leads, msgs, rest);
      var r := [Summarize(leads, msgs, ids[0])] + tail;
      assert forall k :: 1 <= k < |r| ==> r[k] == tail[k - 1];
      r
  }

  /** `GET /`: one summary per lead that has messages. The order of the
      groups is whatever the aggregation yields; here it is order of first
      message. */
  function ListConversations(st: Store): (r: seq<ConversationSummary>)
    ensures |r| == |LeadsWithMessages(st.messages)|
    ensures forall k :: 0 <= k < |r| ==> r[k].leadId == LeadsWithMessages(st.messages)[k]
    ensures forall k :: 0 <= k < |r| ==>
      r[k] == Summarize(st.leads, st.messages, LeadsWithMessages(st.messages)[k])
  {
    Summaries(st.leads, st.messages, LeadsWithMessages(st.messages))
  }

  predicate SummaryLeadsUnique(r: seq<ConversationSummary>) {
    forall i, j :: 0 <= i < j < |r| ==> r[i].leadId != r[j].leadId
  }

  predicate Summarized(r: seq<ConversationSummary>, id: LeadId) {
    exists k :: 0 <= k < |r| && r[k].leadId == id
  }

  predicate CoversLedger(r: seq<ConversationSummary>, msgs: seq<Message>) {
    forall i :: 0 <= i < |msgs| ==> Summarized(r, msgs[i].leadId)
  }

  predicate OnlyActiveLeads(r: seq<ConversationSummary>, msgs: seq<Message>) {
    forall k :: 0 <= k < |r| ==> HasMessages(msgs, r[k].leadId)
  }

  /** Exactly one summary per lead that has messages, and none for a lead
      without. */
  lemma OneSummaryPerLead(st: Store)
    ensures SummaryLeadsUnique(ListConversations(st))
    ensures CoversLedger(ListConversations(st), st.messages)
    ensures OnlyActiveLeads(ListConversations(st), st.messages)
  {
    SummaryLeadsDistinct(st);
    EveryLeadSummarized(st);
    SummariesHaveMessages(st);
  }

  lemma SummaryLeadsDistinct(st: Store)
    ensures SummaryLeadsUnique(ListConversations(st))
  {
  }

  lemma EveryLeadSummarized(st: Store)
    ensures CoversLedger(ListConversations(st), st.messages)
  {
    CoveredByLeadList(ListConversations(st), LeadsWithMessages(st.messages), st.messages);
  }

  /** Summaries that follow a lead list holding every message's lead cover
      the ledger. */
  lemma CoveredByLeadList(r: seq<ConversationSummary>, ids: seq<LeadId>, msgs: seq<Message>)
    requires |r| == |ids| && forall k :: 0 <= k < |r| ==> r[k].leadId == ids[k]
    requires forall i :: 0 <= i < |msgs| ==> msgs[i].leadId in ids
    ensures CoversLedger(r, msgs)
  {
    forall i | 0 <= i < |msgs|
      ensures Summarized(r, msgs[i].leadId)
    {
      var k :| 0 <= k < |ids| && ids[k] == msgs[i].leadId;
      assert 0 <= k < |r| && r[k].leadId == msgs[i].leadId;
    }
  }

  lemma SummariesHaveMessages(st: Store)
    ensures OnlyActiveLeads(ListConversations(st), st.messages)
  {
  }

  // ---------------------------------------------------------------------------
  // The counts add up

  function TotalMessages(cs: seq<ConversationSummary>): nat {
    if cs == [] then 0 else cs[0].messageCount + TotalMessages(cs[1..])
  }

  function TotalUnread(cs: seq<ConversationSummary>): nat {
    if cs == [] then 0 else cs[0].unreadCount + TotalUnread(cs[1..])
  }

  /** The summed sizes of the per-lead selections over a list of leads. */
  function SumThreads(ids: seq<LeadId>, msgs: seq<Message>): nat {
    if ids == [] then 0 else |Select(msgs, ForLead(ids[0]))| + SumThreads(ids[1..], msgs)
  }

  function Occurrences(ids: seq<LeadId>, id: LeadId): nat {
    if ids == [] then 0 else (if ids[0] == id then 1 else 0) + Occurrences(ids[1..], id)
  }

  lemma {:induction false} DistinctOccurs(ids: seq<LeadId>, id: LeadId)
    requires Distinct(ids)
    ensures Occurrences(ids, id) == if id in ids then 1 else 0
  {
    if ids != [] {
      DistinctOccurs(ids[1..], id);
    }
  }

  lemma {:induction false} SumThreadsSnoc(ids: seq<LeadId>, msgs: seq<Message>, m: Message)
    ensures SumThreads(ids, msgs + [m]) == SumThreads(ids, msgs) + Occurrences(ids, m.leadId)
  {
    if ids != [] {
      SumThreadsSnoc(ids[1..], msgs, m);
      SelectAppend(msgs, [m], ForLead(ids[0]));
    }
  }

  /** Each message is counted once when the leads are distinct and cover the
      ledger. */
  lemma {:induction false} SumThreadsIsLength(ids: seq<LeadId>, msgs: seq<Message>)
    requires Distinct(ids)
    requires forall i :: 0 <= i < |msgs| ==> msgs[i].leadId in ids
    ensures SumThreads(ids, msgs) == |msgs|
    decreases |msgs|
  {
    if msgs == [] {
      SumThreadsEmpty(ids);
    } else {
      var init := msgs[..|msgs| - 1];
      var last := msgs[|msgs| - 1];
      assert msgs == init + [last];
      SumThreadsIsLength(ids, init);
      SumThreadsSnoc(ids, init, last);
      DistinctOccurs(ids, last.leadId);
    }
  }

  lemma {:induction false} SumThreadsEmpty(ids: seq<LeadId>)
    ensures SumThreads(ids, []) == 0
  {
    if ids != [] {
      SumThreadsEmpty(ids[1..]);
    }
  }

  lemma {:induction false} SummariesTotals(leads: seq<Lead>, msgs: seq<Message>, ids: seq<LeadId>)
    requires forall k :: 0 <= k < |ids| ==> HasMessages(msgs, ids[k])
    ensures TotalMessages(Summaries(leads, msgs, ids)) == SumThreads(ids, msgs)
    ensures TotalUnread(Summaries(leads, msgs, ids)) == SumThreads(ids, Select(msgs, IsInbound))
  {
    if ids != [] {
      SummariesTotals(leads, msgs, ids[1..]);
      var c := Summarize(leads, msgs, ids[0]);
      assert Summaries(leads, msgs, ids) == [c] + Summaries(leads, msgs, ids[1..]);
      assert c.messageCount == |Select(msgs, ForLead(ids[0]))|;
      assert c.unreadCount == |Select(Select(msgs, ForLead(ids[0])), IsInbound)|;
      SelectCommutes(msgs, ForLead(ids[0]), IsInbound);
    }
  }

  /** The summaries partition the ledger: their message counts add up to the
      number of stored messages, and their unread counts to the number of
      inbound messages. */
  lemma ConversationTotals(st: Store)
    ensures TotalMessages(ListConversations(st)) == |st.messages|
    ensures TotalUnread(ListConversations(st)) == |Select(st.messages, IsInbound)|
  {
    var ids := LeadsWithMessages(st.messages);
    SummariesTotals(st.leads, st.messages, ids);
    SumThreadsIsLength(ids, st.messages);
    var inbound := Select(st.messages, IsInbound);
    SelectMembers(st.messages, IsInbound);
    forall i | 0 <= i < |inbound|
      ensures inbound[i].leadId in ids
    {
      assert inbound[i] in inbound;
    }
    SumThreadsIsLength(ids, inbound);
  }
}
