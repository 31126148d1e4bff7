/** `MessageQueueService` (POC.Api/Services/MessageQueueService.cs): a cache
    of one sender per queue name, the two publish overloads, the consumer
    start, the health probe, the queue declaration and the disposal. Every
    call it makes into the SDK is appended to the ghost `log`; every call of
    the canonical publish overload to the ghost `published`. */
module MessageQueue {
  import opened Common
  import opened Models
  import opened ServiceBus
  import opened EnvelopeBuilder
  import opened Consumer

  /** What the string overload puts into `Source`. */
  const PublisherSource: string := "POC.Api"

  /** One call of `PublishMessageAsync(Message, string)`. */
  datatype Publication = Publication(queue: string, message: Message)

  /** The message the string overload builds: a new `Message` with the given
      content and type and the publisher's source. */
  function TextMessage(content: string, messageType: string, id: Guid, now: Instant): (m: Message)
    ensures m.content == Some(content) && m.messageType == messageType
    ensures m.source == Some("POC.Api")
    ensures m.id == id && m.createdAt == now && m.properties == map[]
  {
    NewMessage(id, now).(content := Some(content), messageType := messageType, source := Some(PublisherSource))
  }

  /** A publish ends normally when a sender for the queue is cached or can
      be created, and the send goes through. */
  predicate PublishSucceeds(senders: map<string, Sender>, clientClosed: bool, queueName: string,
                            createThrows: bool, sendThrows: bool)
  {
    (queueName in senders || (!clientClosed && !createThrows)) && !sendThrows
  }

  /** The sender cache agrees with the log: since position `epoch` exactly
      one sender was created for each cached name, and none for any other. */
  ghost predicate CacheMatches(log: seq<Event>, epoch: nat, senders: map<string, Sender>)
  {
    && epoch <= |log|
    && forall q :: CreatedFor(log[epoch..], q) == if q in senders then [senders[q]] else []
  }

  lemma CreatedSinceAppend(log: seq<Event>, epoch: nat, evs: seq<Event>, q: string)
    requires epoch <= |log|
    ensures CreatedFor((log + evs)[epoch..], q) == CreatedFor(log[epoch..], q) + CreatedFor(evs, q)
  {
    assert (log + evs)[epoch..] == log[epoch..] + evs;
    CreatedForConcat(log[epoch..], evs, q);
  }

  /** Events other than sender creations keep the cache in agreement. */
  lemma CacheAfterOther(log: seq<Event>, epoch: nat, senders: map<string, Sender>, evs: seq<Event>)
    requires CacheMatches(log, epoch, senders)
    requires forall e :: e in evs ==> !e.SenderCreated?
    ensures CacheMatches(log + evs, epoch, senders)
  {
    forall q ensures CreatedFor((log + evs)[epoch..], q) == if q in senders then [senders[q]] else [] {
      CreatedSinceAppend(log, epoch, evs, q);
      CreatedForNone(evs, q);
    }
  }

  /** A creation attempt for an uncached name keeps the cache in agreement
      once a created sender is cached under that name. */
  lemma CacheAfterCreate(log: seq<Event>, epoch: nat, senders: map<string, Sender>, queue: string, attempt: Option<Sender>)
    requires CacheMatches(log, epoch, senders) && queue !in senders
    ensures CacheMatches(log + [SenderCreated(queue, attempt)], epoch,
                         if attempt.Some? then senders[queue := attempt.value] else senders)
  {
    var e := SenderCreated(queue, attempt);
    var s' := if attempt.Some? then senders[queue := attempt.value] else senders;
    forall q ensures CreatedFor((log + [e])[epoch..], q) == if q in s' then [s'[q]] else [] {
      CreatedSinceAppend(log, epoch, [e], q);
      assert [e][..0] == [];
    }
  }

  /** `closes` closes every sender of `all` exactly once, in some order;
      each close reports whether it threw. */
  predicate ClosesEach(closes: seq<Event>, all: set<Sender>, closeThrows: Sender -> bool)
  {
    && ClosedSenders(closes) == multiset(all)
    && |closes| == |all|
    && forall e :: e in closes ==> e.SenderClosed? && e.ok == !closeThrows(e.sender)
  }

  /** One more close in the loop of `CloseEach`. */
  lemma CloseStep(closes: seq<Event>, all: set<Sender>, pending: set<Sender>, s: Sender, ok: bool)
    requires pending <= all && s in pending
    requires ClosedSenders(closes) == multiset(all - pending) && |closes| == |all - pending|
    ensures ClosedSenders(closes + [SenderClosed(s, ok)]) == multiset(all - (pending - {s}))
    ensures |closes + [SenderClosed(s, ok)]| == |all - (pending - {s})|
  {
    var closes' := closes + [SenderClosed(s, ok)];
    assert closes'[..|closes'| - 1] == closes;
    var done := all - pending;
    assert all - (pending - {s}) == done + {s};
    assert s !in done;
    assert multiset(done + {s}) == multiset(done) + multiset{s};
  }

  /** The `foreach` of `Dispose` over the cached senders: closes each one,
      whether or not an earlier close threw. */
  method CloseEach(all: set<Sender>, closeThrows: Sender -> bool) returns (closes: seq<Event>)
    ensures ClosesEach(closes, all, closeThrows)
  {
    var pending := all;
    closes := [];
    while pending != {}
      invariant pending <= all
      invariant ClosedSenders(closes) == multiset(all - pending)
      invariant |closes| == |all - pending|
      invariant forall e :: e in closes ==> e.SenderClosed? && e.ok == !closeThrows(e.sender)
      decreases pending
    {
      var sender :| sender in pending;
      var ok := !closeThrows(sender);
      CloseStep(closes, all, pending, sender, ok);
      closes := closes + [SenderClosed(sender, ok)];
      pending := pending - {sender};
    }
    assert all - pending == all;
  }

  /** A snapshot of a service and its client: the sender cache, the
      records of calls, whether the service is disposed, and the client's
      state. */
  datatype QueueState = QueueState(
    senders: map<string, Sender>,
    log: seq<Event>,
    published: seq<Publication>,
    disposed: bool,
    consumers: set<string>,
    isClosed: bool,
    nextSerial: nat)

  /** The state after one call of the canonical publish overload from
      state `s`: the call is recorded; for a queue name not yet cached it
      tries once to create a sender, and when a sender is cached or created
      it sends `EnvelopeFor(message)` through it once, with no retry.
      Whether the call succeeds is `PublishSucceeds`. */
  function AfterPublish(s: QueueState, queueName: string, message: Message,
                        createThrows: bool, sendThrows: bool): QueueState
  {
    var published := s.published + [Publication(queueName, message)];
    if queueName in s.senders then
      var h := s.senders[queueName];
      QueueState(s.senders, s.log + [Sent(h, EnvelopeFor(message), !sendThrows)], published,
                 s.disposed, s.consumers, s.isClosed, s.nextSerial)
    else if createThrows || s.isClosed then
      QueueState(s.senders, s.log + [SenderCreated(queueName, None)], published,
                 s.disposed, s.consumers, s.isClosed, s.nextSerial)
    else
      var h := Sender(queueName, s.nextSerial);
      QueueState(s.senders[queueName := h], s.log + [SenderCreated(queueName, Some(h))] + [Sent(h, EnvelopeFor(message), !sendThrows)],
                 published, s.disposed, s.consumers, s.isClosed, s.nextSerial + 1)
  }

  /** The counters and the creations of a log with events appended. */
  lemma AppendToLog(log: seq<Event>, added: seq<Event>)
    ensures (log + added)[..|log|] == log
    ensures Sends(log + added) == Sends(log) + Sends(added)
    ensures forall q :: CreatedFor(log + added, q) == CreatedFor(log, q) + CreatedFor(added, q)
  {
    CountsConcat(log, added);
    forall q ensures CreatedFor(log + added, q) == CreatedFor(log, q) + CreatedFor(added, q) {
      CreatedForConcat(log, added, q);
    }
  }

  /** The events one publish appends to the log. */
  lemma PublishEvents(s: QueueState, queueName: string, message: Message, createThrows: bool, sendThrows: bool)
      returns (added: seq<Event>)
    ensures var t := AfterPublish(s, queueName, message, createThrows, sendThrows);
      && t.log == s.log + added
      && Sends(added) == (if queueName in t.senders then 1 else 0)
      && (queueName in t.senders ==> added[|added| - 1] == Sent(t.senders[queueName], EnvelopeFor(message), !sendThrows))
      && forall q :: CreatedFor(added, q) == if q == queueName && queueName in t.senders && queueName !in s.senders then [t.senders[queueName]] else []
  {
    if queueName in s.senders {
      var e := Sent(s.senders[queueName], EnvelopeFor(message), !sendThrows);
      added := [e];
      CountsOfSingleton(e);
      assert [e][..0] == [];
    } else if createThrows || s.isClosed {
      var e := SenderCreated(queueName, None);
      added := [e];
      CountsOfSingleton(e);
      assert [e][..0] == [];
    } else {
      var h := Sender(queueName, s.nextSerial);
      var c, e := SenderCreated(queueName, Some(h)), Sent(h, EnvelopeFor(message), !sendThrows);
      added := [c] + [e];
      CountsOfSingleton(c);
      CountsOfSingleton(e);
      CountsConcat([c], [e]);
      forall q ensures CreatedFor(added, q) == if q == queueName then [h] else [] {
        CreatedForConcat([c], [e], q);
        assert [c][..0] == [] && [e][..0] == [];
      }
    }
  }

  /** One publish records itself, and caches a sender under its queue name
      exactly when one was cached or can be created; the entries of the
      other queues stay as they were. */
  lemma PublishKeepsOtherSenders(s: QueueState, queueName: string, message: Message, createThrows: bool, sendThrows: bool)
    ensures var t := AfterPublish(s, queueName, message, createThrows, sendThrows);
      && t.published == s.published + [Publication(queueName, message)]
      && (queueName in t.senders <==> queueName in s.senders || !(createThrows || s.isClosed))
      && (queueName in s.senders ==> t.senders[queueName] == s.senders[queueName])
      && forall q :: q != queueName ==> (q in t.senders <==> q in s.senders) && (q in s.senders ==> t.senders[q] == s.senders[q])
  {
  }

  /** What one publish does to the transport: it only appends to the log;
      it sends exactly once when a sender for the queue is cached or can be
      created, through the sender then cached under the queue name, and
      otherwise not at all (there is no retry); it creates at most one
      sender, for its own queue only and only when none was cached. */
  lemma PublishSendsOnce(s: QueueState, queueName: string, message: Message, createThrows: bool, sendThrows: bool)
    ensures var t := AfterPublish(s, queueName, message, createThrows, sendThrows);
      var sends := queueName in s.senders || !(createThrows || s.isClosed);
      && |s.log| < |t.log| && t.log[..|s.log|] == s.log
      && Sends(t.log) == Sends(s.log) + (if sends then 1 else 0)
      && (sends ==> t.log[|t.log| - 1] == Sent(t.senders[queueName], EnvelopeFor(message), !sendThrows))
      && CreatedFor(t.log, queueName) == CreatedFor(s.log, queueName) + (if queueName in s.senders || !sends then [] else [t.senders[queueName]])
      && forall q :: q != queueName ==> CreatedFor(t.log, q) == CreatedFor(s.log, q)
  {
    var added := PublishEvents(s, queueName, message, createThrows, sendThrows);
    PublishKeepsOtherSenders(s, queueName, message, createThrows, sendThrows);
    AppendToLog(s.log, added);
  }

  class MessageQueueService {
    const client: ServiceBusClient
    var senders: map<string, Sender>
    var disposed: bool
    ghost var log: seq<Event>
    ghost var published: seq<Publication>
    /** Queues with a started processor. */
    ghost var consumers: set<string>
    /** Where in `log` the cache was last emptied (by `Dispose`). */
    ghost var epoch: nat

    /** Each cached sender sends to the queue it is cached under. */
    ghost predicate SendersKeyed()
      reads this`senders
    {
      forall q :: q in senders ==> senders[q].queue == q
    }

    /** The cached senders are keyed by their queues, and since the cache
        was last emptied exactly one sender was created for each cached name
        and none for any other name. */
    ghost predicate Valid()
      reads this`senders, this`log, this`epoch
    {
      SendersKeyed() && CacheMatches(log, epoch, senders)
    }

    constructor (client: ServiceBusClient)
      ensures Valid() && this.client == client
      ensures senders == map[] && !disposed
      ensures log == [] && published == [] && consumers == {}
    {
      this.client := client;
      senders := map[];
      disposed := false;
      log := [];
      published := [];
      consumers := {};
      epoch := 0;
    }

    /** `GetOrCreateSender`: the cached sender for `queueName`, or a sender
        created (and cached) on the first use of the name. */
    method GetOrCreateSender(queueName: string, createThrows: bool) returns (r: Outcome<Sender>)
      requires Valid()
      modifies this`senders, this`log, client`nextSerial
      ensures Valid()
      ensures if queueName in old(senders) then
                && r == Returned(old(senders)[queueName])
                && senders == old(senders) && log == old(log) && client.nextSerial == old(client.nextSerial)
              else if createThrows || old(client.isClosed) then
                && r == Threw && client.nextSerial == old(client.nextSerial)
                && senders == old(senders) && log == old(log) + [SenderCreated(queueName, None)]
              else
                var h := Sender(queueName, old(client.nextSerial));
                && r == Returned(h) && client.nextSerial == old(client.nextSerial) + 1
                && senders == old(senders)[queueName := h]
                && log == old(log) + [SenderCreated(queueName, Some(h))]
      ensures r.Returned? ==> queueName in senders && senders[queueName] == r.value
    {
      if queueName !in senders {
        var attempt: Option<Sender> := None;
        if !createThrows && !client.isClosed {
          attempt := Some(Sender(queueName, client.nextSerial));
          client.nextSerial := client.nextSerial + 1;
        }
        CacheAfterCreate(log, epoch, senders, queueName, attempt);
        log := log + [SenderCreated(queueName, attempt)];
        if attempt.None? {
          return Threw;
        }
        senders := senders[queueName := attempt.value];
      }
      return Returned(senders[queueName]);
    }

    /** The part of the service and of its client that a publish reads or
        changes. */
    ghost function State(): QueueState
      reads this`senders, this`log, this`published, this`disposed, this`consumers, client`isClosed, client`nextSerial
    {
      QueueState(senders, log, published, disposed, consumers, client.isClosed, client.nextSerial)
    }

    /** `PublishMessageAsync(Message message, string queueName)`. The two
        branches are the two cases of `GetOrCreateSender`: a sender is
        cached for `queueName`, or one has to be created. */
    method PublishMessage(message: Message, queueName: string, createThrows: bool, sendThrows: bool) returns (r: Status)
      requires Valid()
      modifies this`senders, this`log, this`published, client`nextSerial
      ensures Valid()
      ensures State() == AfterPublish(old(State()), queueName, message, createThrows, sendThrows)
      ensures r == Succeeded <==> PublishSucceeds(old(senders), old(client.isClosed), queueName, createThrows, sendThrows)
    {
      if queueName in senders {
        r := PublishCached(message, queueName, sendThrows);
      } else {
        r := PublishUncached(message, queueName, createThrows, sendThrows);
      }
    }

    /** A publish to a queue whose sender is cached. The lookup makes no
        creation attempt, so whether one would throw does not arise. */
    method PublishCached(message: Message, queueName: string, sendThrows: bool) returns (r: Status)
      requires Valid() && queueName in senders
      modifies this`senders, this`log, this`published, client`nextSerial
      ensures Valid()
      ensures senders == old(senders) && client.nextSerial == old(client.nextSerial)
      ensures log == old(log) + [Sent(senders[queueName], EnvelopeFor(message), !sendThrows)]
      ensures published == old(published) + [Publication(queueName, message)]
      ensures r == if sendThrows then Faulted else Succeeded
    {
      var sender := GetOrCreateSender(queueName, false);
      r := Send(sender.value, message, sendThrows);
      published := published + [Publication(queueName, message)];
    }

    /** A publish to a queue with no cached sender: one creation attempt,
        and a send only if it succeeded. */
    method PublishUncached(message: Message, queueName: string, createThrows: bool, sendThrows: bool) returns (r: Status)
      requires Valid() && queueName !in senders
      modifies this`senders, this`log, this`published, client`nextSerial
      ensures Valid()
      ensures State() == AfterPublish(old(State()), queueName, message, createThrows, sendThrows)
      ensures r == if createThrows || old(client.isClosed) || sendThrows then Faulted else Succeeded
    {
      var sender := GetOrCreateSender(queueName, createThrows);
      if sender.Threw? {
        r := Faulted;
      } else {
        ghost var created := log;
        r := Send(sender.value, message, sendThrows);
        assert created == old(log) + [SenderCreated(queueName, Some(sender.value))];
      }
      published := published + [Publication(queueName, message)];
    }

    /** `sender.SendMessageAsync`: one send, through `sender`, of the
        envelope built for `message`; `sendThrows` says whether it throws. */
    method Send(sender: Sender, message: Message, sendThrows: bool) returns (r: Status)
      requires Valid()
      modifies this`log
      ensures Valid()
      ensures log == old(log) + [Sent(sender, EnvelopeFor(message), !sendThrows)]
      ensures r == if sendThrows then Faulted else Succeeded
    {
      var envelope := BuildEnvelope(message);
      var sent := Sent(sender, envelope, !sendThrows);
      CacheAfterOther(log, epoch, senders, [sent]);
      log := log + [sent];
      r := if sendThrows then Faulted else Succeeded;
    }

    /** `PublishMessageAsync(string content, string queueName, string
        messageType)`: builds the message (`id` and `now` stand for
        `Guid.NewGuid()` and `DateTime.UtcNow`) and hands it to the
        canonical overload with the same queue name. */
    method PublishText(content: string, queueName: string, messageType: string, id: Guid, now: Instant,
                       createThrows: bool, sendThrows: bool) returns (r: Status)
      requires Valid()
      modifies this`senders, this`log, this`published, client`nextSerial
      ensures Valid()
      ensures State() == AfterPublish(old(State()), queueName, TextMessage(content, messageType, id, now), createThrows, sendThrows)
      ensures r == Succeeded <==> PublishSucceeds(old(senders), old(client.isClosed), queueName, createThrows, sendThrows)
    {
      r := PublishMessage(TextMessage(content, messageType, id, now), queueName, createThrows, sendThrows);
    }

    /** `StartConsumingAsync`: creates a processor with at most one message in
        flight and no automatic completion, and starts it. A failure to create
        or start it is the caller's failure. */
    method StartConsuming(queueName: string, createThrows: bool, startThrows: bool) returns (r: Status)
      requires Valid()
      modifies this`log, this`consumers
      ensures Valid()
      ensures senders == old(senders) && disposed == old(disposed) && published == old(published)
      ensures epoch == old(epoch)
      ensures createThrows || client.isClosed ==>
        && r == Faulted && consumers == old(consumers)
        && log == old(log) + [ProcessorCreated(queueName, ProcessorOptions(1, false), false)]
      ensures !createThrows && !client.isClosed ==>
        && log == old(log) + [ProcessorCreated(queueName, ProcessorOptions(1, false), true), ProcessingStarted(queueName, !startThrows)]
        && (r == Succeeded <==> !startThrows)
        && consumers == if startThrows then old(consumers) else old(consumers) + {queueName}
    {
      var created := !createThrows && !client.isClosed;
      var evs := [ProcessorCreated(queueName, ConsumerOptions, created)];
      r := Faulted;
      if created {
        evs := evs + [ProcessingStarted(queueName, !startThrows)];
        if !startThrows {
          consumers := consumers + {queueName};
          r := Succeeded;
        }
      }
      CacheAfterOther(log, epoch, senders, evs);
      log := log + evs;
    }

    /** The `ProcessMessageAsync` callback of a processor started on
        `queueName`, for one delivery. */
    method ProcessMessage(queueName: string, d: Delivery, handlerThrows: bool, completeThrows: bool)
      requires Valid() && queueName in consumers
      modifies this`log
      ensures Valid()
      ensures log == old(log) + Settle(queueName, d, handlerThrows, completeThrows)
      ensures senders == old(senders) && disposed == old(disposed)
      ensures published == old(published) && consumers == old(consumers) && epoch == old(epoch)
    {
      var evs := Settle(queueName, d, handlerThrows, completeThrows);
      CacheAfterOther(log, epoch, senders, evs);
      log := log + evs;
    }

    /** `IsHealthyAsync`: the client is not closed; false if asking throws. */
    method IsHealthy(probeThrows: bool) returns (healthy: bool)
      ensures healthy == (!probeThrows && !client.isClosed)
    {
      if probeThrows {
        return false;
      }
      healthy := !client.isClosed;
    }

    /** `CreateQueueAsync`: queues are provisioned outside the application,
        so the call succeeds without touching the transport or any state. */
    method CreateQueue(queueName: string, durable: bool) returns (r: Status)
      ensures r == Succeeded
    {
      r := Succeeded;
    }

    /** `Dispose`: on its first call, tries to close every cached sender (a
        sender whose close throws does not stop the others), empties the
        cache, disposes the client and marks the service disposed; later
        calls do nothing. `closeThrows` says which closes throw. The client
        marks itself closed before it shuts its connection down, so it is
        closed even when its disposal throws (`clientDisposeThrows`), which
        the `catch` only logs. */
    method Dispose(closeThrows: Sender -> bool, clientDisposeThrows: bool)
      requires Valid()
      modifies this`senders, this`log, this`epoch, this`disposed, client`isClosed
      ensures Valid() && disposed
      ensures published == old(published) && consumers == old(consumers)
      ensures client.nextSerial == old(client.nextSerial)
      ensures old(disposed) ==>
        && senders == old(senders) && log == old(log) && epoch == old(epoch)
        && client.isClosed == old(client.isClosed)
      ensures !old(disposed) ==>
        && senders == map[]
        && |old(log)| < |log| && log[..|old(log)|] == old(log)
        && ClosesEach(log[|old(log)|..|log| - 1], old(senders).Values, closeThrows)
        && log[|log| - 1] == ClientDisposed(!clientDisposeThrows)
        && client.isClosed
    {
      if !disposed {
        CloseSenders(closeThrows);
        ghost var closed := log;
        log := log + [ClientDisposed(!clientDisposeThrows)];
        assert log[..|old(log)|] == closed[..|old(log)|] && log[|old(log)|..|log| - 1] == closed[|old(log)|..];
        epoch := |log|;
        client.isClosed := true;
        disposed := true;
      }
    }

    /** The disposal evidently intended for a service that does not own the
        client: it closes the senders it created, exactly as `Dispose` does,
        but leaves the shared client open. */
    method DisposeOwned(closeThrows: Sender -> bool)
      requires Valid()
      modifies this`senders, this`log, this`epoch, this`disposed
      ensures Valid() && disposed
      ensures published == old(published) && consumers == old(consumers)
      ensures old(disposed) ==> senders == old(senders) && log == old(log) && epoch == old(epoch)
      ensures !old(disposed) ==>
        && senders == map[]
        && |old(log)| <= |log| && log[..|old(log)|] == old(log)
        && ClosesEach(log[|old(log)|..], old(senders).Values, closeThrows)
    {
      if !disposed {
        CloseSenders(closeThrows);
        disposed := true;
      }
    }

    /** The sender part of both disposals: the `foreach` over the cached
        senders, then `_senders.Clear()`. */
    method CloseSenders(closeThrows: Sender -> bool)
      requires Valid()
      modifies this`senders, this`log, this`epoch
      ensures Valid() && senders == map[] && epoch == |log|
      ensures |old(log)| <= |log| && log[..|old(log)|] == old(log)
      ensures ClosesEach(log[|old(log)|..], old(senders).Values, closeThrows)
    {
      var closes := CloseEach(senders.Values, closeThrows);
      ghost var before := log;
      log := before + closes;
      senders := map[];
      epoch := |log|;
      assert log[..|before|] == before;
      assert log[|before|..] == closes;
      assert log[epoch..] == [];
    }
  }
  /** Two lookups of the same name in a row: once the first yields a
      sender, the second yields the same handle, and exactly one sender has
      been created for the name since the cache was last emptied. */
  method LookupTwice(svc: MessageQueueService, queueName: string, createThrows: bool, createThrowsAgain: bool)
    returns (first: Outcome<Sender>, second: Outcome<Sender>)
    requires svc.Valid()
    modifies svc, svc.client
    ensures svc.Valid()
    ensures first.Returned? ==> second == first
    ensures first.Returned? ==> CreatedFor(svc.log[svc.epoch..], queueName) == [first.value]
  {
    first := svc.GetOrCreateSender(queueName, createThrows);
    second := svc.GetOrCreateSender(queueName, createThrowsAgain);
  }

  /** What is published is what a processor hands to the handler: the body
      of the envelope `PublishMessageAsync` sends reads back as the
      published message, which the handler receives, and a handler and a
      completion that succeed complete the delivery. */
  lemma PublishedMessageIsHandled(queue: string, m: Message, sequenceNumber: nat)
    ensures var d := Delivery(sequenceNumber, EnvelopeFor(m).body);
      Settle(queue, d, false, false) == [HandlerInvoked(queue, m), Completed(queue, d, true)]
  {
    var d := Delivery(sequenceNumber, EnvelopeFor(m).body);
    EnvelopeRoundTrip(m);
    SettleCompleted(queue, d);
  }
}
