/**
 * Chat with a cache in front of the message store (API/Services/ChartServices.cs). The store's
 * save and history queries and the cache's chat operations are called there but defined
 * nowhere in the repository; this module assumes them, keyed on the unordered pair of
 * participants. The store, the broker and the cache are abstract state of the service:
 *   - `messages`: the stored chat messages in insertion order, numbered by `nextMessageId`;
 *   - `published`: every message handed to the broker, in order;
 *   - `cache[k]`: the cached history of conversation `k`, in caching order.
 */
module ChatService {
  import opened Wrappers
  import opened Tables

  datatype ChatMessage = ChatMessage(
    id: int,
    senderId: int,
    recipientId: int,
    content: string,
    timestamp: int,
    isRead: bool)

  /** A conversation is the unordered pair of its two participants. */
  function Conversation(a: int, b: int): (int, int)
  {
    if a <= b then (a, b) else (b, a)
  }

  function KeyOf(m: ChatMessage): (int, int)
  {
    Conversation(m.senderId, m.recipientId)
  }

  function InConversation(a: int, b: int): ChatMessage -> bool
  {
    (m: ChatMessage) => KeyOf(m) == Conversation(a, b)
  }

  /** The store's history query: the messages between the two users, either way, in store order. */
  function StoredHistory(messages: seq<ChatMessage>, a: int, b: int): seq<ChatMessage>
  {
    Where(messages, InConversation(a, b))
  }

  /** Stored history holds exactly the stored messages exchanged between the two, in either direction. */
  lemma StoredHistoryFacts(messages: seq<ChatMessage>, a: int, b: int)
    ensures forall m :: m in StoredHistory(messages, a, b) <==>
              m in messages && ((m.senderId == a && m.recipientId == b) || (m.senderId == b && m.recipientId == a))
    ensures StoredHistory(messages, a, b) == StoredHistory(messages, b, a)
  {
    WhereAll(messages, InConversation(a, b));
    assert Conversation(a, b) == Conversation(b, a);
    WhereSameCondition(messages, InConversation(a, b), InConversation(b, a));
  }

  function Lookup(cache: map<(int, int), seq<ChatMessage>>, k: (int, int)): seq<ChatMessage>
  {
    if k in cache then cache[k] else []
  }

  /** Caching a message appends it to its conversation's list. */
  function CacheMessage(cache: map<(int, int), seq<ChatMessage>>, m: ChatMessage): map<(int, int), seq<ChatMessage>>
  {
    cache[KeyOf(m) := Lookup(cache, KeyOf(m)) + [m]]
  }

  /** The message `SendMessageAsync` builds before saving: no id yet, unread. */
  function Draft(senderId: int, recipientId: int, content: string, now: int): (m: ChatMessage)
    ensures !m.isRead
  {
    ChatMessage(0, senderId, recipientId, content, now, false)
  }

  class ChatService {
    var messages: seq<ChatMessage>
    var nextMessageId: int
    var published: seq<ChatMessage>
    var cache: map<(int, int), seq<ChatMessage>>

    constructor ()
      ensures messages == [] && nextMessageId == 1 && published == [] && cache == map[]
    {
      messages, nextMessageId, published, cache := [], 1, [], map[];
    }

    /** The store's save: numbers the message and appends it. */
    method SaveChatMessage(m: ChatMessage) returns (saved: ChatMessage)
      modifies this
      ensures saved == m.(id := old(nextMessageId))
      ensures messages == old(messages) + [saved] && nextMessageId == old(nextMessageId) + 1
      ensures published == old(published) && cache == old(cache)
    {
      saved := m.(id := nextMessageId);
      messages := messages + [saved];
      nextMessageId := nextMessageId + 1;
    }

    /** Saves, publishes and caches the message; the saved message (with its id) is returned. */
    method SendMessageAsync(senderId: int, recipientId: int, content: string, now: int) returns (saved: ChatMessage)
      modifies this
      ensures saved == Draft(senderId, recipientId, content, now).(id := old(nextMessageId))
      ensures messages == old(messages) + [saved] && nextMessageId == old(nextMessageId) + 1
      ensures published == old(published) + [saved]
      ensures cache == CacheMessage(old(cache), saved)
    {
      var message := Draft(senderId, recipientId, content, now);
      saved := SaveChatMessage(message);
      published := published + [saved];
      cache := CacheMessage(cache, saved);
    }

    /**
     * Cache-aside read: a non-empty cached history is returned as it is; otherwise the store's
     * history is returned and each of its messages is cached, so the cache then holds it.
     */
    method GetChatHistoryAsync(senderId: int, recipientId: int) returns (history: seq<ChatMessage>)
      modifies this
      ensures var key := Conversation(senderId, recipientId);
        && (Lookup(old(cache), key) != [] ==> history == Lookup(old(cache), key) && cache == old(cache))
        && (Lookup(old(cache), key) == [] ==>
              history == StoredHistory(messages, senderId, recipientId)
              && cache == if history == [] then old(cache) else old(cache)[key := history])
      ensures history != [] ==>
                Lookup(cache, Conversation(senderId, recipientId)) == history
                && Lookup(cache, Conversation(recipientId, senderId)) == history
      ensures messages == old(messages) && nextMessageId == old(nextMessageId) && published == old(published)
    {
      var key := Conversation(senderId, recipientId);
      var cached := Lookup(cache, key);
      if cached != [] {
        return cached;
      }
      history := StoredHistory(messages, senderId, recipientId);
      WhereAll(messages, InConversation(senderId, recipientId));
      var i := 0;
      while i < |history|
        invariant 0 <= i <= |history|
        invariant cache == if i == 0 then old(cache) else old(cache)[key := history[..i]]
        invariant messages == old(messages) && nextMessageId == old(nextMessageId) && published == old(published)
      {
        assert history[i] in history;
        assert Lookup(cache, key) == history[..i];
        assert history[..i + 1] == history[..i] + [history[i]];
        cache := CacheMessage(cache, history[i]);
        i := i + 1;
      }
      assert history[..i] == history;
    }
  }
}
