/** The Azure Service Bus SDK as the message-queue service sees it: the
    message it sends, the sender and processor handles it obtains, the
    deliveries a processor hands it, and the calls it makes, recorded as
    events. The broker itself (storage, locks, redelivery, expiry) is not
    modelled. */
module ServiceBus {
  import opened Common
  import opened Models

  /** The body of a Service Bus message. A serialized `Message` is `Json(m)`;
      a body may also be the JSON literal `null`, or text that is not a
      `Message` at all. */
  datatype Body = Json(message: Message) | JsonNull | Malformed(text: string)

  /** `JsonSerializer.Serialize(message)`. */
  function Serialize(m: Message): Body
  {
    Json(m)
  }

  /** `JsonSerializer.Deserialize<Message>(json)`: null for the literal
      `null`, an exception for text that is not a `Message`. */
  function Deserialize(b: Body): (r: Outcome<Option<Message>>)
    ensures r == Returned(None) <==> b == JsonNull
    ensures r.Threw? <==> b.Malformed?
  {
    match b
    case Json(m) => Returned(Some(m))
    case JsonNull => Returned(None)
    case Malformed(_) => Threw
  }

  /** A `ServiceBusMessage` as built for sending. */
  datatype Envelope = Envelope(
    body: Body,
    messageId: string,
    contentType: string,
    subject: string,
    timeToLive: int,
    applicationProperties: map<string, Value>)

  /** A `ServiceBusSender`: the queue it sends to and the serial number the
      client gave it, which makes every created sender a distinct handle. */
  datatype Sender = Sender(queue: string, serial: nat)

  /** A message handed to a processor's `ProcessMessageAsync` callback. */
  datatype Delivery = Delivery(sequenceNumber: nat, body: Body)

  /** `ServiceBusProcessorOptions`. */
  datatype ProcessorOptions = ProcessorOptions(maxConcurrentCalls: nat, autoCompleteMessages: bool)

  /** One call into the SDK (or into the application's handler); `ok` is
      false when the call threw. */
  datatype Event =
    | SenderCreated(queue: string, created: Option<Sender>)
    | Sent(sender: Sender, envelope: Envelope, ok: bool)
    | ProcessorCreated(queue: string, options: ProcessorOptions, ok: bool)
    | ProcessingStarted(queue: string, ok: bool)
    | HandlerInvoked(queue: string, message: Message)
    | Completed(queue: string, delivery: Delivery, ok: bool)
    | Abandoned(queue: string, delivery: Delivery)
    | SenderClosed(sender: Sender, ok: bool)
    | ClientDisposed(ok: bool)

  /** The senders successfully created for `queue`, in order. */
  function CreatedFor(log: seq<Event>, queue: string): seq<Sender>
  {
    if log == [] then []
    else
      var e := log[|log| - 1];
      CreatedFor(log[..|log| - 1], queue)
        + (if e.SenderCreated? && e.queue == queue && e.created.Some? then [e.created.value] else [])
  }

  lemma {:induction false} CreatedForConcat(a: seq<Event>, b: seq<Event>, queue: string)
    ensures CreatedFor(a + b, queue) == CreatedFor(a, queue) + CreatedFor(b, queue)
  {
    if b != [] {
      var b' := b[..|b| - 1];
      assert (a + b)[..|a + b| - 1] == a + b';
      CreatedForConcat(a, b', queue);
    } else {
      assert a + b == a;
    }
  }

  /** A log without sender creations creates no sender. */
  lemma {:induction false} CreatedForNone(log: seq<Event>, queue: string)
    requires forall e :: e in log ==> !e.SenderCreated?
    ensures CreatedFor(log, queue) == []
  {
    if log != [] {
      assert log[|log| - 1] in log;
      CreatedForNone(log[..|log| - 1], queue);
    }
  }

  /** The senders the `SenderClosed` events of `log` name, with multiplicity. */
  function ClosedSenders(log: seq<Event>): multiset<Sender>
  {
    if log == [] then multiset{}
    else
      var e := log[|log| - 1];
      ClosedSenders(log[..|log| - 1]) + (if e.SenderClosed? then multiset{e.sender} else multiset{})
  }

  /** Number of `Completed` events of `log` (attempted completions). */
  function Completions(log: seq<Event>): nat
  {
    if log == [] then 0 else Completions(log[..|log| - 1]) + (if log[|log| - 1].Completed? then 1 else 0)
  }

  /** Number of completions of `log` that succeeded. */
  function SuccessfulCompletions(log: seq<Event>): nat
  {
    if log == [] then 0
    else
      var e := log[|log| - 1];
      SuccessfulCompletions(log[..|log| - 1]) + (if e.Completed? && e.ok then 1 else 0)
  }

  /** Number of `Abandoned` events of `log`. */
  function Abandons(log: seq<Event>): nat
  {
    if log == [] then 0 else Abandons(log[..|log| - 1]) + (if log[|log| - 1].Abandoned? then 1 else 0)
  }

  /** Number of handler invocations in `log`. */
  function HandlerCalls(log: seq<Event>): nat
  {
    if log == [] then 0 else HandlerCalls(log[..|log| - 1]) + (if log[|log| - 1].HandlerInvoked? then 1 else 0)
  }

  /** Number of `Sent` events of `log`. */
  function Sends(log: seq<Event>): nat
  {
    if log == [] then 0 else Sends(log[..|log| - 1]) + (if log[|log| - 1].Sent? then 1 else 0)
  }

  /** The counters of a one-event log. */
  lemma CountsOfSingleton(e: Event)
    ensures Completions([e]) == (if e.Completed? then 1 else 0)
    ensures SuccessfulCompletions([e]) == (if e.Completed? && e.ok then 1 else 0)
    ensures Abandons([e]) == (if e.Abandoned? then 1 else 0)
    ensures HandlerCalls([e]) == (if e.HandlerInvoked? then 1 else 0)
    ensures Sends([e]) == (if e.Sent? then 1 else 0)
  {
    assert [e][..0] == [];
  }

  /** The counters above add up over a concatenation. */
  lemma {:induction false} CountsConcat(a: seq<Event>, b: seq<Event>)
    ensures Completions(a + b) == Completions(a) + Completions(b)
    ensures SuccessfulCompletions(a + b) == SuccessfulCompletions(a) + SuccessfulCompletions(b)
    ensures Abandons(a + b) == Abandons(a) + Abandons(b)
    ensures HandlerCalls(a + b) == HandlerCalls(a) + HandlerCalls(b)
    ensures Sends(a + b) == Sends(a) + Sends(b)
  {
    if b != [] {
      var b' := b[..|b| - 1];
      assert (a + b)[..|a + b| - 1] == a + b';
      assert (a + b)[|a + b| - 1] == b[|b| - 1];
      CountsConcat(a, b');
    } else {
      assert a + b == a;
    }
  }

  /** A `ServiceBusClient`: the process-wide connection factory. `IsClosed`
      becomes true when it is disposed; `nextSerial` numbers the senders it
      creates. Once closed it refuses to create senders and processors. */
  class ServiceBusClient {
    var isClosed: bool
    var nextSerial: nat

    constructor ()
      ensures !isClosed && nextSerial == 0
    {
      isClosed := false;
      nextSerial := 0;
    }
  }
}
