/** How the host wires the message-queue service (POC.Api/Program.cs): one
    `ServiceBusClient` for the whole process, and a new `MessageQueueService`
    per request scope, disposed when the scope ends. A request scope here is
    a construction on the shared client, one publish, and the disposal. */
module Hosting {
  import opened Common
  import opened Models
  import opened ServiceBus
  import opened MessageQueue

  /** One request scope disposed with the service's own `Dispose`: a
      publish to `queueName` over a transport that never fails goes through
      exactly when the shared client is open, and the scope leaves the
      client closed, whatever the closes and the client's disposal do. */
  method ScopeAsWritten(client: ServiceBusClient, m: Message, queueName: string,
                        closeThrows: Sender -> bool, clientDisposeThrows: bool) returns (status: Status)
    modifies client
    ensures status == if old(client.isClosed) then Faulted else Succeeded
    ensures client.isClosed
  {
    var scope := new MessageQueueService(client);
    status := scope.PublishMessage(m, queueName, false, false);
    scope.Dispose(closeThrows, clientDisposeThrows);
  }

  /** One request scope disposed with `DisposeOwned`: the same publish, and
      the client is left as it was, whatever closing each cached sender
      does. */
  method ScopeCorrected(client: ServiceBusClient, m: Message, queueName: string, closeThrows: Sender -> bool)
    returns (status: Status)
    modifies client
    ensures status == if old(client.isClosed) then Faulted else Succeeded
    ensures client.isClosed == old(client.isClosed)
  {
    var scope := new MessageQueueService(client);
    status := scope.PublishMessage(m, queueName, false, false);
    scope.DisposeOwned(closeThrows);
  }

  /** Two request scopes, one after the other, each publishing `m` to
      `queueName` with a transport that never fails, and each disposed with
      the service's own `Dispose`: the first scope closes the shared client,
      so the publish of the second scope fails and the health probe of any
      later scope reports the service unhealthy. */
  method TwoScopesAsWritten(m: Message, queueName: string) returns (first: Status, second: Status, healthy: bool)
    ensures first == Succeeded
    ensures second == Faulted
    ensures !healthy
  {
    var client := new ServiceBusClient();
    first := ScopeAsWritten(client, m, queueName, _ => false, false);
    second := ScopeAsWritten(client, m, queueName, _ => false, false);
    var probe := new MessageQueueService(client);
    healthy := probe.IsHealthy(false);
  }

  /** The same two scopes disposed with `DisposeOwned`: the client stays
      open, both publishes go through and the probe reports healthy. */
  method TwoScopesCorrected(m: Message, queueName: string) returns (first: Status, second: Status, healthy: bool)
    ensures first == Succeeded
    ensures second == Succeeded
    ensures healthy
  {
    var client := new ServiceBusClient();
    first := ScopeCorrected(client, m, queueName, _ => false);
    second := ScopeCorrected(client, m, queueName, _ => false);
    var probe := new MessageQueueService(client);
    healthy := probe.IsHealthy(false);
  }

  /** Any number of request scopes in a row on one open client, each
      publishing `m` to `queueName` over a transport that never fails and
      each disposed with the service's own `Dispose`, whatever the closes and
      the client's disposal do: the first publish goes through and every
      later one fails, because the first scope closed the client. */
  method ManyScopesAsWritten(client: ServiceBusClient, m: Message, queueName: string, scopes: nat,
                             closeThrows: Sender -> bool, clientDisposeThrows: bool)
    returns (statuses: seq<Status>)
    requires !client.isClosed
    modifies client
    ensures |statuses| == scopes
    ensures scopes > 0 ==> statuses[0] == Succeeded && client.isClosed
    ensures forall i :: 0 < i < scopes ==> statuses[i] == Faulted
  {
    statuses := [];
    while |statuses| < scopes
      invariant |statuses| <= scopes
      invariant |statuses| == 0 ==> !client.isClosed
      invariant |statuses| > 0 ==> statuses[0] == Succeeded && client.isClosed
      invariant forall i :: 0 < i < |statuses| ==> statuses[i] == Faulted
    {
      var status := ScopeAsWritten(client, m, queueName, closeThrows, clientDisposeThrows);
      statuses := statuses + [status];
    }
  }

  /** The same scopes disposed with `DisposeOwned`, whatever closing each
      cached sender does: the client stays open and every publish goes
      through. */
  method ManyScopesCorrected(client: ServiceBusClient, m: Message, queueName: string, scopes: nat,
                             closeThrows: Sender -> bool) returns (statuses: seq<Status>)
    requires !client.isClosed
    modifies client
    ensures !client.isClosed
    ensures |statuses| == scopes
    ensures forall i :: 0 <= i < scopes ==> statuses[i] == Succeeded
  {
    statuses := [];
    while |statuses| < scopes
      invariant !client.isClosed && |statuses| <= scopes
      invariant forall i :: 0 <= i < |statuses| ==> statuses[i] == Succeeded
    {
      var status := ScopeCorrected(client, m, queueName, closeThrows);
      statuses := statuses + [status];
    }
  }
}
