/** The chat channel (lib/conversations.ts): one conversation per claimed question, the
    messages posted in it, ending it, and the listings. */
module Conversations {
  import opened Wrappers
  import opened Schema
  import opened Seqs
  import opened Tables

  /** The message types a participant may send; `system` is reserved for the greeting. */
  type ChatType = t: MessageType | t != System witness Text

  function ConversationWithId(cid: Id): Conversation -> bool {
    (c: Conversation) => c.id == cid
  }

  function InConversation(cid: Id): Message -> bool {
    (m: Message) => m.conversationId == cid
  }

  /** `or('user_id.eq.uid,judge_id.eq.uid')`. */
  function Involving(uid: Id): Conversation -> bool {
    (c: Conversation) => c.userId == uid || c.judgeId == uid
  }

  predicate OldestFirst(a: Message, b: Message) {
    a.createdAt <= b.createdAt
  }

  predicate RecentFirst(a: Conversation, b: Conversation) {
    b.lastMessageAt <= a.lastMessageAt
  }

  /** `getConversation`: the one conversation with that id. */
  function GetConversation(s: Store, cid: Id): (r: Result<Conversation, Error>)
    ensures r.Ok? ==> r.value in s.conversations && r.value.id == cid
    ensures Valid(s) ==> (r.Ok? <==> exists c :: c in s.conversations && c.id == cid)
    ensures r.Err? ==> r.error == NotSingleRow
  {
    KeyedMatch(s.conversations, ConversationKey, cid, ConversationWithId(cid));
    var rows := Filter(s.conversations, ConversationWithId(cid));
    assert |rows| == 1 ==> rows[0] in rows;
    Single(rows)
  }

  /** `getMessages`: a conversation's messages, oldest first. */
  function GetMessages(s: Store, cid: Id): (r: seq<Message>)
    ensures forall m :: m in r <==> m in s.messages && m.conversationId == cid
    ensures SortedBy(r, OldestFirst)
    ensures multiset(r) == multiset(Filter(s.messages, InConversation(cid)))
  {
    SortBy(Filter(s.messages, InConversation(cid)), OldestFirst)
  }

  function Touch(now: Time): Conversation -> Conversation {
    (c: Conversation) => c.(lastMessageAt := now)
  }

  /** `sendMessage`: with a caller, inserts the message, which the foreign key on
      `conversation_id` rejects when no conversation has the id; it then moves the
      conversation's `last_message_at` to now (that second write is not checked). The
      conversation's status is not consulted. */
  function SendMessage(s: Store, caller: Option<Id>, now: Time, cid: Id, content: string,
                       kind: ChatType, imageUrl: Option<string>): (r: Reply<Message>)
    ensures caller.None? ==> r == Reply(Err(NotAuthenticated), s)
    ensures caller.Some? ==> (r.result.Ok? <==> HasConversation(s, cid))
    ensures caller.Some? && !HasConversation(s, cid) ==> r == Reply(Err(NotFound), s)
    ensures r.result.Ok? ==>
              var m := r.result.value;
              && m.conversationId == cid && m.senderId == caller.value && m.content == Some(content)
              && m.messageType == kind && m.imageUrl == imageUrl && m.createdAt == now && m.readAt == None
              && r.store.messages == s.messages + [m]
    ensures r.result.Ok? ==> |r.store.conversations| == |s.conversations|
    ensures r.result.Ok? ==> forall i :: 0 <= i < |s.conversations| ==>
              r.store.conversations[i]
              == if s.conversations[i].id == cid then s.conversations[i].(lastMessageAt := now) else s.conversations[i]
    ensures r.store.(messages := s.messages, conversations := s.conversations, nextId := s.nextId) == s
    ensures s.nextId <= r.store.nextId
    ensures Valid(s) ==> Valid(r.store)
  {
    match caller
    case None => Reply(Err(NotAuthenticated), s)
    case Some(uid) =>
      if !HasConversation(s, cid) then Reply(Err(NotFound), s)
      else
        var m := Message(s.nextId, cid, uid, Some(content), kind, imageUrl, now, None);
        var s1 := AddMessage(s, m);
        Reply(Ok(m), UpdateConversations(s1, ConversationWithId(cid), Touch(now)))
  }

  /** A message sent to an existing conversation is listed in it, and no other conversation's
      listing changes. */
  lemma SendMessageListed(s: Store, uid: Id, now: Time, cid: Id, content: string,
                          kind: ChatType, imageUrl: Option<string>, other: Id)
    requires other != cid
    ensures var r := SendMessage(s, Some(uid), now, cid, content, kind, imageUrl);
            && (HasConversation(s, cid) ==>
                  && r.result.value in GetMessages(r.store, cid)
                  && |GetMessages(r.store, cid)| == |GetMessages(s, cid)| + 1)
            && GetMessages(r.store, other) == GetMessages(s, other)
  {
    var r := SendMessage(s, Some(uid), now, cid, content, kind, imageUrl);
    if r.result.Ok? {
      var m := r.result.value;
      assert r.store.messages == s.messages + [m];
      FilterSnoc(s.messages, m, InConversation(cid));
      FilterSnoc(s.messages, m, InConversation(other));
      assert Filter(r.store.messages, InConversation(other)) == Filter(s.messages, InConversation(other));
      assert |Filter(r.store.messages, InConversation(cid))| == |Filter(s.messages, InConversation(cid))| + 1;
    }
  }

  function End(now: Time): Conversation -> Conversation {
    (c: Conversation) => c.(status := Ended, endedAt := Some(now))
  }

  /** `endConversation`: sets the conversation ended at `now`, from whatever status it had;
      the update is rolled back unless exactly one row has the id. */
  function EndConversation(s: Store, now: Time, cid: Id): (r: Reply<Conversation>)
    ensures r.result.Ok? <==> |Filter(s.conversations, ConversationWithId(cid))| == 1
    ensures Valid(s) ==> (r.result.Ok? <==> exists c :: c in s.conversations && c.id == cid)
    ensures r.result.Err? ==> r.store == s && r.result.error == NotSingleRow
    ensures r.result.Ok? ==>
              && r.result.value.id == cid && r.result.value.status == Ended
              && r.result.value.endedAt == Some(now) && r.result.value in r.store.conversations
    ensures r.store.(conversations := s.conversations) == s
    ensures |r.store.conversations| == |s.conversations|
    ensures forall i :: 0 <= i < |s.conversations| ==>
              r.store.conversations[i]
              == if s.conversations[i].id == cid && r.result.Ok?
                 then s.conversations[i].(status := Ended, endedAt := Some(now)) else s.conversations[i]
    ensures Valid(s) ==> Valid(r.store)
  {
    KeyedMatch(s.conversations, ConversationKey, cid, ConversationWithId(cid));
    UpdateConversation(s, ConversationWithId(cid), End(now))
  }

  /** Ending a conversation twice is the same as ending it once at the later time: the
      second call succeeds exactly when the first did and only moves `ended_at`. */
  lemma EndConversationTwice(s: Store, t1: Time, t2: Time, cid: Id)
    ensures var r1 := EndConversation(s, t1, cid);
            var r2 := EndConversation(r1.store, t2, cid);
            r2.result.Ok? == r1.result.Ok? && r2.store == EndConversation(s, t2, cid).store
  {
    var p := ConversationWithId(cid);
    UpdateWhereKeepsCount(s.conversations, p, End(t1), p);
  }

  /** `getMyConversations`: the conversations the caller asked or judges, most recent
      activity first. */
  function GetMyConversations(s: Store, caller: Option<Id>): (r: Result<seq<Conversation>, Error>)
    ensures caller.None? <==> r.Err?
    ensures r.Err? ==> r.error == NotAuthenticated
    ensures r.Ok? ==> forall c :: c in r.value <==>
              c in s.conversations && (c.userId == caller.value || c.judgeId == caller.value)
    ensures r.Ok? ==> SortedBy(r.value, RecentFirst)
    ensures r.Ok? ==> multiset(r.value) == multiset(Filter(s.conversations, Involving(caller.value)))
  {
    match caller
    case None => Err(NotAuthenticated)
    case Some(uid) => Ok(SortBy(Filter(s.conversations, Involving(uid)), RecentFirst))
  }

  /** Sending a message keeps the conversation in both participants' listings, with its
      activity time moved to now. */
  lemma SendMessageBumpsActivity(s: Store, uid: Id, now: Time, c: Conversation, content: string,
                                 kind: ChatType, imageUrl: Option<string>, viewer: Id)
    requires c in s.conversations
    requires viewer == c.userId || viewer == c.judgeId
    ensures var r := SendMessage(s, Some(uid), now, c.id, content, kind, imageUrl);
            c.(lastMessageAt := now) in GetMyConversations(r.store, Some(viewer)).value
  {
    var r := SendMessage(s, Some(uid), now, c.id, content, kind, imageUrl);
    var i :| 0 <= i < |s.conversations| && s.conversations[i] == c;
    assert HasConversation(s, c.id);
    assert r.store.conversations[i] == c.(lastMessageAt := now);
  }
}
