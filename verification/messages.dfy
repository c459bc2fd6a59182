/**
 The employee inbox: sending (new messages go on top), marking as read, the searchable list of
 the messages the employee took part in, the unread badge, and the recipient picker.
 */
module Messages {
  import opened Seqs
  import opened Text

  datatype Status = Read | Unread

  datatype Message = Message(
    id: int, sender: string, recipient: string, avatar: string,
    content: string, timestamp: string, status: Status)

  const CompanyUsers := ["HR Team", "Manager", "Employee A", "Employee B", "IT Support"]

  const InitialMessages := [
    Message(1, "John Doe", "HR Team", "https://bit.ly/dan-abramov",
            "Hey, just checking in about the leave request.", "10 mins ago", Unread),
    Message(2, "HR Team", "John Doe", "https://bit.ly/prosper-baba",
            "Your leave has been approved.", "1 hour ago", Read)
  ]

  /** The inbox and the two compose fields. */
  datatype Inbox = Inbox(messages: seq<Message>, recipient: string, draft: string)

  /**
   The ids are exactly 1..n for n messages, each used once: true of the initial list, and the
   reason `messages.length + 1` is a fresh id.
   */
  ghost predicate IdsAreOneToN(ms: seq<Message>) {
    && (forall i :: 0 <= i < |ms| ==> 1 <= ms[i].id <= |ms|)
    && (forall i, j :: 0 <= i < j < |ms| ==> ms[i].id != ms[j].id)
  }

  lemma InitialIds()
    ensures IdsAreOneToN(InitialMessages)
  {
  }

  /**
   `handleSend`: a blank recipient or a blank message is ignored; otherwise a read message from
   `me` with the trimmed recipient and content, numbered one past the list length, goes on top
   and both fields are cleared. `time` is the formatted clock reading.
   */
  function Send(inbox: Inbox, me: string, time: string): (r: Inbox)
    ensures IsBlank(inbox.recipient) || IsBlank(inbox.draft) ==> r == inbox
    ensures !IsBlank(inbox.recipient) && !IsBlank(inbox.draft) ==>
      && |r.messages| == |inbox.messages| + 1
      && r.messages[1..] == inbox.messages
      && r.messages[0].id == |inbox.messages| + 1
      && r.messages[0].sender == me
      && r.messages[0].recipient == Trim(inbox.recipient)
      && r.messages[0].content == Trim(inbox.draft)
      && r.messages[0].status == Read
      && r.recipient == [] && r.draft == []
  {
    TrimEmptyIffBlank(inbox.recipient);
    TrimEmptyIffBlank(inbox.draft);
    if Trim(inbox.recipient) == [] || Trim(inbox.draft) == [] then inbox
    else
      var m := Message(|inbox.messages| + 1, me, Trim(inbox.recipient), "", Trim(inbox.draft), time, Read);
      Inbox([m] + inbox.messages, [], [])
  }

  /** Sending keeps the ids 1..n, so the new id never collides with an existing one. */
  lemma SendKeepsIds(inbox: Inbox, me: string, time: string)
    requires IdsAreOneToN(inbox.messages)
    ensures IdsAreOneToN(Send(inbox, me, time).messages)
  {
    var r := Send(inbox, me, time).messages;
    if r != inbox.messages {
      forall i, j | 0 <= i < j < |r| ensures r[i].id != r[j].id {
        assert r[j] == inbox.messages[j - 1];
        if i > 0 { assert r[i] == inbox.messages[i - 1]; }
      }
      forall i | 0 <= i < |r| ensures 1 <= r[i].id <= |r| {
        if i > 0 { assert r[i] == inbox.messages[i - 1]; }
      }
    }
  }

  /** `handleMarkAsRead`: only an unread message with that id changes, and only its status. */
  function MarkAsRead(ms: seq<Message>, id: int): (r: seq<Message>)
    ensures |r| == |ms|
    ensures forall i :: 0 <= i < |ms| ==> r[i].(status := ms[i].status) == ms[i]
    ensures forall i :: 0 <= i < |ms| ==> (r[i].status == Read <==> ms[i].status == Read || ms[i].id == id)
  {
    seq(|ms|, i requires 0 <= i < |ms| =>
      if ms[i].id == id && ms[i].status == Unread then ms[i].(status := Read) else ms[i])
  }

  /** Marking the same id twice is the same as marking it once. */
  lemma MarkAsReadIdempotent(ms: seq<Message>, id: int)
    ensures MarkAsRead(MarkAsRead(ms, id), id) == MarkAsRead(ms, id)
  {
  }

  /** Marking as read keeps the ids. */
  lemma MarkAsReadKeepsIds(ms: seq<Message>, id: int)
    requires IdsAreOneToN(ms)
    ensures IdsAreOneToN(MarkAsRead(ms, id))
  {
  }

  /** The employee wrote or received the message. */
  predicate Involves(m: Message, me: string) {
    m.sender == me || m.recipient == me
  }

  /** The search term occurs, ignoring case, in the sender, the recipient or the text. */
  predicate MatchesSearch(m: Message, term: string) {
    IncludesIgnoringCase(m.sender, term) || IncludesIgnoringCase(m.recipient, term)
    || IncludesIgnoringCase(m.content, term)
  }

  predicate Visible(m: Message, me: string, term: string) {
    Involves(m, me) && MatchesSearch(m, term)
  }

  /** `employeeMessages`: the messages `me` took part in that match the search, in list order. */
  function EmployeeMessages(ms: seq<Message>, me: string, term: string): (r: seq<Message>)
    ensures forall i :: 0 <= i < |r| ==> r[i] in ms && Involves(r[i], me) && MatchesSearch(r[i], term)
    ensures forall i :: 0 <= i < |ms| ==> (ms[i] in r <==> Involves(ms[i], me) && MatchesSearch(ms[i], term))
    ensures Subsequence(r, ms)
  {
    Filter(ms, (m: Message) => Visible(m, me, term))
  }

  /** An empty search shows every message the employee took part in. */
  lemma EmptySearchShowsOwn(ms: seq<Message>, me: string)
    ensures forall i :: 0 <= i < |ms| ==> (ms[i] in EmployeeMessages(ms, me, []) <==> Involves(ms[i], me))
  {
    forall i | 0 <= i < |ms| ensures MatchesSearch(ms[i], []) {
      IncludesIgnoringCaseEmpty(ms[i].sender);
    }
  }

  predicate UnreadFor(m: Message, me: string) {
    m.status == Unread && m.recipient == me
  }

  /** `unreadCount`: the visible messages addressed to `me` and still unread. */
  function UnreadCount(ms: seq<Message>, me: string, term: string): (n: nat)
    ensures n <= |EmployeeMessages(ms, me, term)|
  {
    Count(EmployeeMessages(ms, me, term), (m: Message) => UnreadFor(m, me))
  }

  /** The badge is zero exactly when no visible message is unread and addressed to `me`. */
  lemma UnreadCountZero(ms: seq<Message>, me: string, term: string)
    ensures var v := EmployeeMessages(ms, me, term);
            UnreadCount(ms, me, term) == 0 <==> forall i :: 0 <= i < |v| ==> !UnreadFor(v[i], me)
  {
    CountIsZeroIffNone(EmployeeMessages(ms, me, term), (m: Message) => UnreadFor(m, me));
  }

  /** The recipient picker: every company user except the employee, in list order. */
  function RecipientOptions(users: seq<string>, me: string): (r: seq<string>)
    ensures me !in r
    ensures forall i :: 0 <= i < |users| && users[i] != me ==> users[i] in r
    ensures forall i :: 0 <= i < |r| ==> r[i] in users
  {
    Filter(users, (u: string) => u != me)
  }
}
