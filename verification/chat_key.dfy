/**
  The conversation key shared by two users and the publish/subscribe topic built
  from it. Both users compute the key from their own id and the other's id; the
  ids are ordered with `String.compareTo` and joined with an underscore, so the
  key does not depend on who computes it. The same key names the conversation's
  node in the durable database (`messages/<key>`).
 */
module ChatKeys {
  import opened JavaLang

  const Separator: char := '_'
  const TopicPrefix: string := "chat/messages/"

  /**
    The key `onCreate` derives: the id that `compareTo` puts first, an underscore,
    then the other id. When the ids are equal both orders give the same string.
   */
  function ChatKey(currentUserId: string, contactId: string): (k: string)
    ensures |k| == |currentUserId| + |contactId| + 1
    ensures || (k == currentUserId + [Separator] + contactId && CompareTo(currentUserId, contactId) <= 0)
            || (k == contactId + [Separator] + currentUserId && CompareTo(contactId, currentUserId) <= 0)
  {
    if CompareTo(currentUserId, contactId) < 0 then currentUserId + [Separator] + contactId
    else
      CompareToAntisymmetric(currentUserId, contactId);
      contactId + [Separator] + currentUserId
  }

  /** Both participants derive the same key, including when the two ids coincide. */
  lemma ChatKeySymmetric(a: string, b: string)
    ensures ChatKey(a, b) == ChatKey(b, a)
  {
    CompareToAntisymmetric(a, b);
  }

  /** The key starts with whichever id `compareTo` orders first, from either side. */
  lemma ChatKeyLesserFirst(a: string, b: string)
    requires CompareTo(a, b) <= 0
    ensures ChatKey(a, b) == a + [Separator] + b
    ensures ChatKey(b, a) == a + [Separator] + b
    ensures ChatKey(a, b)[..|a|] == a
  {
    CompareToAntisymmetric(a, b);
  }

  /** Two users `u1` and `u2` both obtain `u1_u2`. */
  lemma ChatKeyExample()
    ensures ChatKey("u1", "u2") == "u1_u2"
    ensures ChatKey("u2", "u1") == "u1_u2"
  {
  }

  predicate HasNoSeparator(s: string) {
    Lacks(s, Separator)
  }

  /** Reads a key back as the pair of ids it joins, cutting at the first underscore. */
  function SplitChatKey(k: string): Option<(string, string)> {
    var i := IndexOf(k, Separator);
    if i == -1 then None else Some((k[..i], k[i + 1..]))
  }

  lemma SplitJoined(x: string, y: string)
    requires HasNoSeparator(x)
    ensures SplitChatKey(x + [Separator] + y) == Some((x, y))
  {
    var k := x + [Separator] + y;
    IndexOfJoined(x, Separator, y);
    assert k[..|x|] == x && k[|x| + 1..] == y;
  }

  /**
    For ids free of underscores the key is a faithful encoding of the unordered
    pair: splitting it returns the two ids, the `compareTo`-smaller one first.
   */
  lemma ChatKeyRoundTrip(a: string, b: string)
    requires HasNoSeparator(a) && HasNoSeparator(b)
    ensures CompareTo(a, b) <= 0 ==> SplitChatKey(ChatKey(a, b)) == Some((a, b))
    ensures CompareTo(a, b) > 0 ==> SplitChatKey(ChatKey(a, b)) == Some((b, a))
  {
    CompareToAntisymmetric(a, b);
    if CompareTo(a, b) <= 0 {
      ChatKeyLesserFirst(a, b);
      SplitJoined(a, b);
    } else {
      ChatKeyLesserFirst(b, a);
      SplitJoined(b, a);
    }
  }

  /** Two pairs of underscore-free ids share a key only when they are the same pair. */
  lemma ChatKeyInjective(a: string, b: string, c: string, d: string)
    requires HasNoSeparator(a) && HasNoSeparator(b) && HasNoSeparator(c) && HasNoSeparator(d)
    requires ChatKey(a, b) == ChatKey(c, d)
    ensures (a == c && b == d) || (a == d && b == c)
  {
    ChatKeyRoundTrip(a, b);
    ChatKeyRoundTrip(c, d);
  }

  /**
    Without the underscore restriction the key is ambiguous: the conversations of
    `a_b` with `c` and of `a` with `b_c` share the key `a_b_c`. The code does not
    rule such ids out.
   */
  lemma ChatKeyCollision()
    ensures ChatKey("a_b", "c") == ChatKey("a", "b_c") == "a_b_c"
  {
  }

  // ---------------------------------------------------------------------------
  // Publish/subscribe topic

  /** The MQTT topic of a conversation, used both to subscribe and to publish. */
  function Topic(chatKey: string): (t: string)
    ensures |t| == |TopicPrefix| + |chatKey|
    ensures t[..|TopicPrefix|] == TopicPrefix
    ensures t[|TopicPrefix|..] == chatKey
  {
    TopicPrefix + chatKey
  }

  /** Recovers the conversation key from a topic, if it has the chat prefix. */
  function TopicKey(topic: string): Option<string> {
    if |topic| >= |TopicPrefix| && topic[..|TopicPrefix|] == TopicPrefix
    then Some(topic[|TopicPrefix|..])
    else None
  }

  /** A topic names exactly one conversation key. */
  lemma TopicRoundTrip(chatKey: string)
    ensures TopicKey(Topic(chatKey)) == Some(chatKey)
  {
  }

  /** Both participants publish and subscribe on the same topic. */
  lemma TopicSymmetric(a: string, b: string)
    ensures Topic(ChatKey(a, b)) == Topic(ChatKey(b, a))
  {
    ChatKeySymmetric(a, b);
  }
}
