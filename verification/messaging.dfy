/**
 * The message table of the in-app chat: viewing a conversation marks the
 * viewer's unread messages read, the polling endpoint stamps what it returns,
 * and unread counts are taken globally and per conversation.
 */
module Messaging {
  import opened Wrappers
  import opened Text
  import opened Accounts

  type MessageId = nat
  type ConversationId = nat

  /** A `Message` row, reduced to the fields the views read or write. */
  datatype Message = Message(
    id: MessageId,
    conversation: ConversationId,
    sender: UserId,
    content: string,
    product: Option<int>,
    service: Option<int>,
    isRead: bool,
    readAt: Option<Time>)

  /** A `Conversation` row: its participants and the instant it was last saved. */
  datatype Conversation = Conversation(id: ConversationId, participants: set<UserId>, updatedAt: Time)

  /** Unread from `user`'s point of view: not yet read and sent by somebody else. */
  predicate Unread(m: Message, user: UserId) {
    !m.isRead && m.sender != user
  }

  /** Every message marked read carries the instant it was read. */
  predicate ReadStamped(ms: seq<Message>) {
    forall i :: 0 <= i < |ms| && ms[i].isRead ==> ms[i].readAt.Some?
  }

  /** The two rows differ at most in their read state. */
  predicate SameMessage(a: Message, b: Message) {
    a.id == b.id && a.conversation == b.conversation && a.sender == b.sender && a.content == b.content
    && a.product == b.product && a.service == b.service
  }

  function MarkOne(m: Message, conv: ConversationId, viewer: UserId, now: Time): Message {
    if m.conversation == conv && Unread(m, viewer) then m.(isRead := true, readAt := Some(now)) else m
  }

  /**
   * `conversation.messages.filter(is_read=False).exclude(sender=viewer).update(is_read=True, read_at=now)`.
   */
  function MarkConversationRead(ms: seq<Message>, conv: ConversationId, viewer: UserId, now: Time): (r: seq<Message>)
    ensures |r| == |ms|
    ensures forall i :: 0 <= i < |ms| ==> SameMessage(r[i], ms[i])
    ensures forall i :: 0 <= i < |ms| && ms[i].conversation == conv && Unread(ms[i], viewer) ==>
              r[i].isRead && r[i].readAt == Some(now)
    ensures forall i :: 0 <= i < |ms| && (ms[i].conversation != conv || ms[i].sender == viewer || ms[i].isRead) ==>
              r[i] == ms[i]
  {
    seq(|ms|, i requires 0 <= i < |ms| => MarkOne(ms[i], conv, viewer, now))
  }

  /** The number of messages of conversation `conv` unread by `user`. */
  function UnreadIn(ms: seq<Message>, conv: ConversationId, user: UserId): (n: nat)
    ensures n <= |ms|
    ensures n == 0 <==> forall i :: 0 <= i < |ms| ==> !(ms[i].conversation == conv && Unread(ms[i], user))
  {
    if |ms| == 0 then 0
    else
      var rest := UnreadIn(ms[1..], conv, user);
      assert forall i :: 1 <= i < |ms| ==> ms[i] == ms[1..][i - 1];
      (if ms[0].conversation == conv && Unread(ms[0], user) then 1 else 0) + rest
  }

  /** After viewing, nothing in the conversation is unread for the viewer. */
  lemma ViewingClearsUnread(ms: seq<Message>, conv: ConversationId, viewer: UserId, now: Time)
    ensures UnreadIn(MarkConversationRead(ms, conv, viewer, now), conv, viewer) == 0
  {
  }

  /** Viewing one conversation leaves every other conversation's unread count as it was. */
  lemma {:induction false} ViewingSparesOtherConversations(ms: seq<Message>, conv: ConversationId, viewer: UserId,
                                                           now: Time, other: ConversationId, user: UserId)
    requires other != conv
    ensures UnreadIn(MarkConversationRead(ms, conv, viewer, now), other, user) == UnreadIn(ms, other, user)
  {
    if |ms| > 0 {
      ViewingSparesOtherConversations(ms[1..], conv, viewer, now, other, user);
      assert MarkConversationRead(ms, conv, viewer, now)[1..] == MarkConversationRead(ms[1..], conv, viewer, now);
    }
  }

  /** A second view, at any later instant, changes nothing. */
  lemma MarkReadIdempotent(ms: seq<Message>, conv: ConversationId, viewer: UserId, now: Time, later: Time)
    ensures MarkConversationRead(MarkConversationRead(ms, conv, viewer, now), conv, viewer, later)
            == MarkConversationRead(ms, conv, viewer, now)
  {
  }

  /** Marking read keeps every read message stamped. */
  lemma MarkKeepsStamps(ms: seq<Message>, conv: ConversationId, viewer: UserId, now: Time)
    requires ReadStamped(ms)
    ensures ReadStamped(MarkConversationRead(ms, conv, viewer, now))
  {
  }

  /**
   * The `last_message_id` parameter: absent or empty means "from the start", and so does a
   * value `int()` rejects; otherwise only later ids are fetched.
   */
  function AfterId(lastMessageId: Option<string>): (r: Option<int>)
    ensures r.None? <==> lastMessageId.None? || lastMessageId.value == "" || !IntLiteral(Strip(lastMessageId.value))
    ensures r.Some? ==> r.value == LiteralValue(Strip(lastMessageId.value))
  {
    if lastMessageId.Some? && lastMessageId.value != "" then ParseInt(lastMessageId.value) else None
  }

  /** A decimal id sent back by the client is honoured exactly. */
  lemma AfterIdReadsDecimal(n: int)
    ensures AfterId(Some(ShowInt(n))) == Some(n)
  {
    ParseShowInt(n);
  }

  /** The `get_new_messages` filter: this conversation, not sent by the viewer, after the given id. */
  predicate Fetched(m: Message, conv: ConversationId, viewer: UserId, after: Option<int>) {
    m.conversation == conv && m.sender != viewer && (after.None? || m.id > after.value)
  }

  /** The rows the endpoint returns, in table order. */
  function NewMessages(ms: seq<Message>, conv: ConversationId, viewer: UserId, after: Option<int>): (r: seq<Message>)
    ensures forall m :: m in r <==> m in ms && Fetched(m, conv, viewer, after)
    ensures multiset(r) <= multiset(ms)
    ensures |r| <= |ms|
  {
    if |ms| == 0 then []
    else
      assert ms == [ms[0]] + ms[1..];
      if Fetched(ms[0], conv, viewer, after) then [ms[0]] + NewMessages(ms[1..], conv, viewer, after)
      else NewMessages(ms[1..], conv, viewer, after)
  }

  function StampOne(m: Message, conv: ConversationId, viewer: UserId, after: Option<int>, now: Time): Message {
    if Fetched(m, conv, viewer, after) then m.(isRead := true, readAt := Some(now)) else m
  }

  /** `new_messages.update(is_read=True, read_at=now)`: every fetched row is stamped, read or not. */
  function StampFetched(ms: seq<Message>, conv: ConversationId, viewer: UserId, after: Option<int>, now: Time): (r: seq<Message>)
    ensures |r| == |ms|
    ensures forall i :: 0 <= i < |ms| ==> SameMessage(r[i], ms[i])
    ensures forall i :: 0 <= i < |ms| && Fetched(ms[i], conv, viewer, after) ==> r[i].isRead && r[i].readAt == Some(now)
    ensures forall i :: 0 <= i < |ms| && !Fetched(ms[i], conv, viewer, after) ==> r[i] == ms[i]
  {
    seq(|ms|, i requires 0 <= i < |ms| => StampOne(ms[i], conv, viewer, after, now))
  }

  /** Everything the endpoint returns is read and stamped with the poll's instant. */
  lemma FetchedAreStamped(ms: seq<Message>, conv: ConversationId, viewer: UserId, after: Option<int>, now: Time)
    ensures forall m :: m in NewMessages(StampFetched(ms, conv, viewer, after, now), conv, viewer, after) ==>
              m.isRead && m.readAt == Some(now)
  {
  }

  /**
   * Unlike viewing, polling re-stamps a message that was already read: its `read_at`
   * moves to the poll's instant.
   */
  lemma PollRestampsReadMessages(ms: seq<Message>, conv: ConversationId, viewer: UserId, now: Time, i: nat)
    requires i < |ms| && Fetched(ms[i], conv, viewer, None) && ms[i].isRead && ms[i].readAt != Some(now)
    ensures StampFetched(ms, conv, viewer, None, now)[i].readAt != ms[i].readAt
    ensures MarkConversationRead(ms, conv, viewer, now)[i].readAt == ms[i].readAt
  {
  }

  /** The ids of the conversations `user` takes part in. */
  function ConversationsOf(convs: seq<Conversation>, user: UserId): (ids: set<ConversationId>)
    ensures forall c :: c in convs && user in c.participants ==> c.id in ids
    ensures forall id :: id in ids ==> exists c :: c in convs && user in c.participants && c.id == id
  {
    set c | c in convs && user in c.participants :: c.id
  }

  /** The number of messages unread by `user` across the conversations in `ids`. */
  function UnreadAcross(ms: seq<Message>, ids: set<ConversationId>, user: UserId): (n: nat)
    ensures n <= |ms|
  {
    if |ms| == 0 then 0
    else (if ms[0].conversation in ids && Unread(ms[0], user) then 1 else 0) + UnreadAcross(ms[1..], ids, user)
  }

  /** The global unread count of `home`, `get_unread_messages_count` and the badge. */
  function UnreadTotal(convs: seq<Conversation>, ms: seq<Message>, user: UserId): nat {
    UnreadAcross(ms, ConversationsOf(convs, user), user)
  }

  /** The per-conversation counts of `messages_view`, added up over the user's conversations. */
  function SumPerConversation(convs: seq<Conversation>, ms: seq<Message>, user: UserId): nat {
    if |convs| == 0 then 0
    else (if user in convs[0].participants then UnreadIn(ms, convs[0].id, user) else 0)
         + SumPerConversation(convs[1..], ms, user)
  }

  predicate DistinctConversationIds(convs: seq<Conversation>) {
    forall i, j :: 0 <= i < j < |convs| ==> convs[i].id != convs[j].id
  }

  /** The global unread count is the sum of the per-conversation counts. */
  lemma {:induction false} UnreadTotalIsSum(convs: seq<Conversation>, ms: seq<Message>, user: UserId)
    requires DistinctConversationIds(convs)
    ensures UnreadTotal(convs, ms, user) == SumPerConversation(convs, ms, user)
  {
    if |convs| == 0 {
      assert ConversationsOf(convs, user) == {};
      UnreadAcrossNone(ms, user);
    } else {
      var c := convs[0];
      var rest := convs[1..];
      assert DistinctConversationIds(rest) by {
        forall i, j | 0 <= i < j < |rest| ensures rest[i].id != rest[j].id {
          assert rest[i] == convs[i + 1] && rest[j] == convs[j + 1];
        }
      }
      UnreadTotalIsSum(rest, ms, user);
      var others := ConversationsOf(rest, user);
      assert c.id !in others by {
        forall d | d in rest ensures d.id != c.id {
          var j :| 0 <= j < |rest| && rest[j] == d;
          assert convs[j + 1] == d;
        }
      }
      if user in c.participants {
        assert ConversationsOf(convs, user) == others + {c.id} by {
          assert forall d :: d in convs <==> d == c || d in rest by {
            assert convs == [c] + rest;
          }
        }
        UnreadAcrossSplit(ms, others, c.id, user);
      } else {
        assert ConversationsOf(convs, user) == others by {
          assert forall d :: d in convs <==> d == c || d in rest by {
            assert convs == [c] + rest;
          }
        }
      }
    }
  }

  /** Counting over one more conversation adds that conversation's count. */
  lemma {:induction false} UnreadAcrossSplit(ms: seq<Message>, ids: set<ConversationId>, id: ConversationId, user: UserId)
    requires id !in ids
    ensures UnreadAcross(ms, ids + {id}, user) == UnreadAcross(ms, ids, user) + UnreadIn(ms, id, user)
  {
    if |ms| > 0 {
      UnreadAcrossSplit(ms[1..], ids, id, user);
    }
  }

  lemma {:induction false} UnreadAcrossNone(ms: seq<Message>, user: UserId)
    ensures UnreadAcross(ms, {}, user) == 0
  {
    if |ms| > 0 {
      UnreadAcrossNone(ms[1..], user);
    }
  }

  /** `get_object_or_404(Conversation, id=conversation_id, participants=user)`: the row's position. */
  function FindConversation(convs: seq<Conversation>, id: ConversationId, user: UserId): (r: Option<nat>)
    ensures r.None? <==> forall i :: 0 <= i < |convs| ==> !(convs[i].id == id && user in convs[i].participants)
    ensures r.Some? ==> r.value < |convs| && convs[r.value].id == id && user in convs[r.value].participants
  {
    if |convs| == 0 then None
    else if convs[0].id == id && user in convs[0].participants then Some(0)
    else
      match FindConversation(convs[1..], id, user)
      case None =>
        assert forall i :: 1 <= i < |convs| ==> convs[i] == convs[1..][i - 1];
        None
      case Some(k) => Some(k + 1)
  }

  /** An optional listing reference from the form: empty means none, and a value `int()` rejects is skipped. */
  function ListingRef(raw: string): (r: Option<int>)
    ensures r.None? <==> raw == "" || !IntLiteral(Strip(raw))
    ensures r.Some? ==> r.value == LiteralValue(Strip(raw))
  {
    if raw == "" then None else ParseInt(raw)
  }

  /** A reference that is absent or names a row of the listing table. */
  predicate Resolves(ref: Option<int>, listings: set<int>) {
    ref.None? || ref.value in listings
  }

  /**
   * The listing references the new message is stored with. The first `Message.objects.create`
   * fails when a reference names no listing (the foreign-key check), and the retry then drops
   * both references, the valid one included.
   */
  function StoredRefs(product: Option<int>, service: Option<int>, products: set<int>, services: set<int>)
    : (r: (Option<int>, Option<int>))
    ensures Resolves(product, products) && Resolves(service, services) ==> r == (product, service)
    ensures !(Resolves(product, products) && Resolves(service, services)) ==> r == (None, None)
    ensures Resolves(r.0, products) && Resolves(r.1, services)
  {
    if Resolves(product, products) && Resolves(service, services) then (product, service) else (None, None)
  }

  datatype ConversationRequest = Get | Post(content: string, productId: string, serviceId: string, ajax: bool)

  datatype ConversationResponse =
    | RedirectToInbox
    | Sent(message: MessageId)
    | EmptyRejected
    | Shown

  datatype PollResponse = NotFound | Messages(messages: seq<Message>)

  /** The chat tables and the next id the message table will hand out. */
  class Inbox {
    var conversations: seq<Conversation>
    var messages: seq<Message>
    var nextMessageId: MessageId

    /** Conversation ids are keys, message ids are below the next one, and every read message is stamped. */
    predicate Valid()
      reads this
    {
      && DistinctConversationIds(conversations)
      && (forall i :: 0 <= i < |messages| ==> messages[i].id < nextMessageId)
      && ReadStamped(messages)
    }

    constructor ()
      ensures Valid() && conversations == [] && messages == []
    {
      conversations := [];
      messages := [];
      nextMessageId := 0;
    }

    /**
     * `conversation_view`. `ajax` is true when the request says `XMLHttpRequest` or is form-encoded.
     * A non-empty post creates one message and re-saves the conversation, then returns; `products`
     * and `services` are the ids of the listing tables the message may refer to. An empty
     * AJAX post returns at once; every other request that reaches the end marks the conversation read.
     */
    method ViewConversation(viewer: UserId, convId: ConversationId, request: ConversationRequest, now: Time,
                            products: set<int>, services: set<int>)
      returns (response: ConversationResponse)
      requires Valid()
      modifies this
      ensures Valid()
      ensures FindConversation(old(conversations), convId, viewer).None? ==>
                response == RedirectToInbox && unchanged(this)
      ensures FindConversation(old(conversations), convId, viewer).Some? && request.Post? && Strip(request.content) != [] ==>
                var k := FindConversation(old(conversations), convId, viewer).value;
                var refs := StoredRefs(ListingRef(Strip(request.productId)), ListingRef(Strip(request.serviceId)),
                                       products, services);
                && response == Sent(old(nextMessageId))
                && messages == old(messages) + [Message(old(nextMessageId), convId, viewer, Strip(request.content),
                                                        refs.0, refs.1, false, None)]
                && nextMessageId == old(nextMessageId) + 1
                && conversations == old(conversations)[k := old(conversations)[k].(updatedAt := now)]
      ensures FindConversation(old(conversations), convId, viewer).Some? && request.Post? && Strip(request.content) == []
              && request.ajax ==>
                response == EmptyRejected && unchanged(this)
      ensures FindConversation(old(conversations), convId, viewer).Some?
              && (request.Get? || (Strip(request.content) == [] && !request.ajax)) ==>
                && response == Shown
                && messages == MarkConversationRead(old(messages), convId, viewer, now)
                && conversations == old(conversations) && nextMessageId == old(nextMessageId)
    {
      var found := FindConversation(conversations, convId, viewer);
      if found.None? {
        return RedirectToInbox;
      }
      var k := found.value;
      if request.Post? {
        var content := Strip(request.content);
        var productId := Strip(request.productId);
        var serviceId := Strip(request.serviceId);
        if content != [] {
          var refs := StoredRefs(ListingRef(productId), ListingRef(serviceId), products, services);
          var id := Send(k, viewer, content, refs.0, refs.1, now);
          return Sent(id);
        } else if request.ajax {
          return EmptyRejected;
        }
      }
      MarkRead(convId, viewer, now);
      return Shown;
    }

    /** `Message.objects.create(...)` followed by `conversation.save()`, which stamps `updated_at`. */
    method Send(k: nat, sender: UserId, content: string, product: Option<int>, service: Option<int>, now: Time)
      returns (id: MessageId)
      requires Valid() && k < |conversations|
      modifies this
      ensures Valid()
      ensures id == old(nextMessageId) && nextMessageId == old(nextMessageId) + 1
      ensures messages == old(messages) + [Message(id, old(conversations)[k].id, sender, content, product, service, false, None)]
      ensures conversations == old(conversations)[k := old(conversations)[k].(updatedAt := now)]
    {
      id := nextMessageId;
      messages := messages + [Message(id, conversations[k].id, sender, content, product, service, false, None)];
      nextMessageId := nextMessageId + 1;
      conversations := conversations[k := conversations[k].(updatedAt := now)];
    }

    /** The bulk read-marking at the end of `conversation_view`. */
    method MarkRead(convId: ConversationId, viewer: UserId, now: Time)
      requires Valid()
      modifies this
      ensures Valid()
      ensures messages == MarkConversationRead(old(messages), convId, viewer, now)
      ensures conversations == old(conversations) && nextMessageId == old(nextMessageId)
    {
      MarkKeepsStamps(messages, convId, viewer, now);
      messages := MarkConversationRead(messages, convId, viewer, now);
    }

    /**
     * `get_new_messages`: the rows after `last_message_id` (or all of them) not sent by the viewer
     * are stamped read and returned.
     */
    method GetNewMessages(viewer: UserId, convId: ConversationId, lastMessageId: Option<string>, now: Time)
      returns (response: PollResponse)
      requires Valid()
      modifies this
      ensures Valid()
      ensures FindConversation(old(conversations), convId, viewer).None? ==> response == NotFound && unchanged(this)
      ensures FindConversation(old(conversations), convId, viewer).Some? ==>
                && messages == StampFetched(old(messages), convId, viewer, AfterId(lastMessageId), now)
                && response == Messages(NewMessages(messages, convId, viewer, AfterId(lastMessageId)))
                && conversations == old(conversations) && nextMessageId == old(nextMessageId)
    {
      var found := FindConversation(conversations, convId, viewer);
      if found.None? {
        return NotFound;
      }
      var after := AfterId(lastMessageId);
      messages := StampFetched(messages, convId, viewer, after, now);
      return Messages(NewMessages(messages, convId, viewer, after));
    }
  }
}
