/** The consumer side of the message-queue service: the options the
    processor is created with and what the `ProcessMessageAsync` callback
    does with each delivery (POC.Api/Services/MessageQueueService.cs,
    lines 65-110). */
module Consumer {
  import opened Common
  import opened Models
  import opened ServiceBus

  /** `MaxConcurrentCalls = 1`, `AutoCompleteMessages = false`. */
  const ConsumerOptions: ProcessorOptions := ProcessorOptions(1, false)

  /** The body of `d` reads back as a (non-null) `Message`. */
  predicate Decodes(d: Delivery)
  {
    var r := Deserialize(d.body);
    r.Returned? && r.value.Some?
  }

  /** The events of one `ProcessMessageAsync` callback. Inside one `try`:
      deserialize the body; when that yields a message, run the handler and
      then complete the delivery. Whatever throws in that block (the
      deserializer, the handler, or the completion) is caught and the
      delivery abandoned. A body that is the JSON literal `null` reaches
      neither branch. */
  function Settle(queue: string, d: Delivery, handlerThrows: bool, completeThrows: bool): (evs: seq<Event>)
    ensures HandlerCalls(evs) == (if Decodes(d) then 1 else 0)
    ensures Completions(evs) <= 1 && Abandons(evs) <= 1
    ensures SuccessfulCompletions(evs) == 1 <==> Decodes(d) && !handlerThrows && !completeThrows
    ensures Abandons(evs) == 1 <==> d.body.Malformed? || (Decodes(d) && (handlerThrows || completeThrows))
    ensures SuccessfulCompletions(evs) == 1 ==> Abandons(evs) == 0
    ensures Completions(evs) == 1 ==> Decodes(d) && !handlerThrows
    ensures evs == [] <==> d.body == JsonNull
    ensures Decodes(d) ==> evs[0] == HandlerInvoked(queue, d.body.message)
    ensures forall e :: e in evs ==> e.HandlerInvoked? || e == Completed(queue, d, !completeThrows) || e == Abandoned(queue, d)
  {
    match Deserialize(d.body)
    case Threw =>
      CountsOfSingleton(Abandoned(queue, d));
      [Abandoned(queue, d)]
    case Returned(None) => []
    case Returned(Some(m)) =>
      var invoked, completed, abandoned := HandlerInvoked(queue, m), Completed(queue, d, !completeThrows), Abandoned(queue, d);
      CountsOfSingleton(invoked);
      CountsOfSingleton(completed);
      CountsOfSingleton(abandoned);
      if handlerThrows then
        CountsConcat([invoked], [abandoned]);
        [invoked] + [abandoned]
      else if completeThrows then
        CountsConcat([invoked], [completed]);
        CountsConcat([invoked] + [completed], [abandoned]);
        [invoked] + [completed] + [abandoned]
      else
        CountsConcat([invoked], [completed]);
        [invoked] + [completed]
  }

  /** The events of a delivery whose handler and completion both succeed. */
  lemma SettleCompleted(queue: string, d: Delivery)
    requires Decodes(d)
    ensures Settle(queue, d, false, false) == [HandlerInvoked(queue, d.body.message), Completed(queue, d, true)]
  {
  }

  /** The events of a delivery whose handler throws. */
  lemma SettleHandlerThrew(queue: string, d: Delivery, completeThrows: bool)
    requires Decodes(d)
    ensures Settle(queue, d, true, completeThrows) == [HandlerInvoked(queue, d.body.message), Abandoned(queue, d)]
  {
  }

  /** One delivery together with how the handler and the completion end. */
  datatype Attempt = Attempt(delivery: Delivery, handlerThrows: bool, completeThrows: bool)

  /** The events of a processor that handles `attempts` one after another:
      with `MaxConcurrentCalls = 1` a callback finishes before the next one
      starts, so the events of the deliveries do not interleave. */
  function Run(queue: string, attempts: seq<Attempt>): seq<Event>
  {
    if attempts == [] then []
    else
      var a := attempts[|attempts| - 1];
      Run(queue, attempts[..|attempts| - 1]) + Settle(queue, a.delivery, a.handlerThrows, a.completeThrows)
  }

  /** Every event of a run belongs to one of its deliveries. */
  lemma {:induction false} RunPrefix(queue: string, attempts: seq<Attempt>, i: nat)
    requires i <= |attempts|
    ensures Run(queue, attempts[..i]) <= Run(queue, attempts)
    decreases |attempts|
  {
    if i < |attempts| {
      var init := attempts[..|attempts| - 1];
      assert attempts[..i] == init[..i];
      RunPrefix(queue, init, i);
    } else {
      assert attempts[..i] == attempts;
    }
  }

  /** The events of each delivery of a run are events of the run. */
  lemma SettleInRun(queue: string, attempts: seq<Attempt>, i: nat)
    requires i < |attempts|
    ensures var a := attempts[i];
            forall e :: e in Settle(queue, a.delivery, a.handlerThrows, a.completeThrows) ==> e in Run(queue, attempts)
  {
    var a := attempts[i];
    var pre := attempts[..i + 1];
    assert pre[..|pre| - 1] == attempts[..i] && pre[|pre| - 1] == a;
    var before, evs := Run(queue, attempts[..i]), Settle(queue, a.delivery, a.handlerThrows, a.completeThrows);
    assert Run(queue, pre) == before + evs;
    RunPrefix(queue, attempts, i + 1);
    var whole := Run(queue, attempts);
    forall e | e in evs ensures e in whole {
      var k :| 0 <= k < |evs| && evs[k] == e;
      assert whole[|before| + k] == (before + evs)[|before| + k] == e;
    }
  }

  /** A handler that always succeeds: every delivery is completed, none is
      abandoned, and the handler ran once per delivery. */
  lemma {:induction false} HandlerAlwaysSucceeds(queue: string, attempts: seq<Attempt>)
    requires forall a :: a in attempts ==> Decodes(a.delivery) && !a.handlerThrows && !a.completeThrows
    ensures SuccessfulCompletions(Run(queue, attempts)) == |attempts|
    ensures Completions(Run(queue, attempts)) == |attempts|
    ensures Abandons(Run(queue, attempts)) == 0
    ensures HandlerCalls(Run(queue, attempts)) == |attempts|
    ensures forall i :: 0 <= i < |attempts| ==> Completed(queue, attempts[i].delivery, true) in Run(queue, attempts)
  {
    if attempts != [] {
      var init, a := attempts[..|attempts| - 1], attempts[|attempts| - 1];
      HandlerAlwaysSucceeds(queue, init);
      CountsConcat(Run(queue, init), Settle(queue, a.delivery, false, false));
      SettleCompleted(queue, a.delivery);
    }
    forall i | 0 <= i < |attempts| ensures Completed(queue, attempts[i].delivery, true) in Run(queue, attempts) {
      assert attempts[i] in attempts;
      SettleCompleted(queue, attempts[i].delivery);
      SettleInRun(queue, attempts, i);
    }
  }

  /** A handler that always throws: every delivery is abandoned, none is
      completed, and the processor keeps handing over deliveries, so the
      handler still ran once per delivery. */
  lemma {:induction false} HandlerAlwaysThrows(queue: string, attempts: seq<Attempt>)
    requires forall a :: a in attempts ==> Decodes(a.delivery) && a.handlerThrows
    ensures Abandons(Run(queue, attempts)) == |attempts|
    ensures Completions(Run(queue, attempts)) == 0
    ensures HandlerCalls(Run(queue, attempts)) == |attempts|
    ensures forall i :: 0 <= i < |attempts| ==> Abandoned(queue, attempts[i].delivery) in Run(queue, attempts)
  {
    if attempts != [] {
      var init, a := attempts[..|attempts| - 1], attempts[|attempts| - 1];
      HandlerAlwaysThrows(queue, init);
      CountsConcat(Run(queue, init), Settle(queue, a.delivery, true, a.completeThrows));
      SettleHandlerThrew(queue, a.delivery, a.completeThrows);
    }
    forall i | 0 <= i < |attempts| ensures Abandoned(queue, attempts[i].delivery) in Run(queue, attempts) {
      assert attempts[i] in attempts;
      SettleHandlerThrew(queue, attempts[i].delivery, attempts[i].completeThrows);
      SettleInRun(queue, attempts, i);
    }
  }
}
