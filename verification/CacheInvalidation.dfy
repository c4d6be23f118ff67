/**
 * The Subscribe loop of internal/cache/invalidation.go: what one instance's tiers are after it has
 * consumed any stretch of invalidation messages.
 */
module CacheInvalidation {

  datatype Channel = CredentialChannel | TokenChannel | APIKeyChannel | OtherChannel

  datatype Message = Message(channel: Channel, payload: string)

  /** What was published on one channel. */
  function Payloads(messages: seq<Message>, channel: Channel): set<string> {
    set m | m in messages && m.channel == channel :: m.payload
  }

  function Payload(m: Message, channel: Channel): set<string> {
    if m.channel == channel then {m.payload} else {}
  }

  lemma PayloadsOfLonger(messages: seq<Message>, m: Message, channel: Channel)
    ensures Payloads(messages + [m], channel) == Payloads(messages, channel) + Payload(m, channel)
  {
  }

  /** The local tiers of one instance; `apiKeys` exists only when it was wired with an API key cache. */
  class Tiers<Credential, DEK, APIKey> {
    var memory: map<string, Credential>
    var dek: map<string, DEK>
    var apiKeys: map<string, APIKey>
    var revokedSet: set<string>
    const hasAPIKeys: bool

    constructor (hasAPIKeys: bool)
      ensures memory == map[] && dek == map[] && apiKeys == map[] && revokedSet == {} && this.hasAPIKeys == hasAPIKeys
    {
      memory, dek, apiKeys, revokedSet := map[], map[], map[], {};
      this.hasAPIKeys := hasAPIKeys;
    }

    /** The body of the loop: one message. */
    method Receive(msg: Message)
      modifies this
      ensures memory == old(memory) - Payload(msg, CredentialChannel)
      ensures dek == old(dek) - Payload(msg, CredentialChannel)
      ensures revokedSet == old(revokedSet) + Payload(msg, TokenChannel)
      ensures apiKeys == if hasAPIKeys then old(apiKeys) - Payload(msg, APIKeyChannel) else old(apiKeys)
    {
      match msg.channel {
        case CredentialChannel =>
          memory := memory - {msg.payload};
          dek := dek - {msg.payload};
        case TokenChannel =>
          revokedSet := revokedSet + {msg.payload};
        case APIKeyChannel =>
          if hasAPIKeys {
            apiKeys := apiKeys - {msg.payload};
          }
        case OtherChannel =>
      }
    }

    /** Only what was named is dropped or marked, and nothing else; the order of the messages does not matter. */
    method Subscribe(messages: seq<Message>)
      modifies this
      ensures memory == old(memory) - Payloads(messages, CredentialChannel)
      ensures dek == old(dek) - Payloads(messages, CredentialChannel)
      ensures revokedSet == old(revokedSet) + Payloads(messages, TokenChannel)
      ensures apiKeys == if hasAPIKeys then old(apiKeys) - Payloads(messages, APIKeyChannel) else old(apiKeys)
    {
      for i := 0 to |messages|
        invariant memory == old(memory) - Payloads(messages[..i], CredentialChannel)
        invariant dek == old(dek) - Payloads(messages[..i], CredentialChannel)
        invariant revokedSet == old(revokedSet) + Payloads(messages[..i], TokenChannel)
        invariant apiKeys == if hasAPIKeys then old(apiKeys) - Payloads(messages[..i], APIKeyChannel) else old(apiKeys)
      {
        var msg := messages[i];
        assert messages[..i + 1] == messages[..i] + [msg];
        PayloadsOfLonger(messages[..i], msg, CredentialChannel);
        PayloadsOfLonger(messages[..i], msg, TokenChannel);
        PayloadsOfLonger(messages[..i], msg, APIKeyChannel);
        Receive(msg);
      }
      assert messages[..|messages|] == messages;
    }
  }
}
