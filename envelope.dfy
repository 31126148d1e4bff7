/** How `PublishMessageAsync` turns a `Message` into the `ServiceBusMessage`
    it sends (POC.Api/Services/MessageQueueService.cs, lines 27-40). */
module EnvelopeBuilder {
  import opened Common
  import opened Models
  import opened ServiceBus

  const JsonContentType: string := "application/json"

  /** `TimeSpan.FromDays(7)`, in ticks. */
  const SevenDays: int := 7 * TicksPerDay

  /** The envelope the publisher sends for `m`: the serialized message as
      body, the message id as `MessageId`, the message type as `Subject`, a
      JSON content type, a seven-day time-to-live, and the message's
      properties as application properties. */
  function EnvelopeFor(m: Message): Envelope
  {
    Envelope(Serialize(m), m.id.text, JsonContentType, m.messageType, SevenDays, m.properties)
  }

  /** Builds the envelope as the code does: the fixed fields first, then the
      properties copied one entry at a time into an empty map. */
  method BuildEnvelope(m: Message) returns (env: Envelope)
    ensures env.messageId == m.id.text && env.subject == m.messageType
    ensures env.contentType == "application/json" && env.timeToLive == 7 * 864_000_000_000
    ensures Deserialize(env.body) == Returned(Some(m))
    ensures env.applicationProperties.Keys == m.properties.Keys
    ensures forall k :: k in m.properties ==> env.applicationProperties[k] == m.properties[k]
    ensures env == EnvelopeFor(m)
  {
    env := Envelope(Serialize(m), m.id.text, JsonContentType, m.messageType, SevenDays, map[]);
    var pending := m.properties.Keys;
    while pending != {}
      invariant pending <= m.properties.Keys
      invariant env.applicationProperties.Keys == m.properties.Keys - pending
      invariant forall k :: k in env.applicationProperties ==> env.applicationProperties[k] == m.properties[k]
      invariant env.(applicationProperties := m.properties) == EnvelopeFor(m)
      decreases pending
    {
      var key :| key in pending;
      env := env.(applicationProperties := env.applicationProperties[key := m.properties[key]]);
      pending := pending - {key};
    }
    assert env.applicationProperties == m.properties;
  }

  /** Serializing and reading back the body of an envelope gives the message. */
  lemma EnvelopeRoundTrip(m: Message)
    ensures Deserialize(EnvelopeFor(m).body) == Returned(Some(m))
  {
  }
}
