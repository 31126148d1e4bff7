/** What the two CRUD controllers have in common: the results their actions
    return, the record of what an action did, and what a publish needs from
    the environment. */
module Http {
  import opened Common
  import opened Models

  /** The result of an action, by HTTP status: `Ok` is 200, `Created` 201
      (`CreatedAtAction`), `NoContent` 204, `BadRequest` 400 with a message,
      `InvalidModel` 400 with the model-state errors, `NotFound` 404 and
      `InternalServerError` 500. */
  datatype ActionResult<+T> =
    | Ok(value: T)
    | Created(value: T)
    | NoContent
    | BadRequest(error: string)
    | InvalidModel
    | NotFound
    | InternalServerError

  /** One call an action makes to a collaborator: a call into its store,
      or a publish of `content` to queue `queue`. */
  datatype Step = StoreCalled | PublishCalled(queue: string, content: string)

  /** Every publish comes right after a call into the store: no
      notification without a preceding mutation attempt. */
  ghost predicate PublishesFollowStoreCalls(steps: seq<Step>)
  {
    forall i :: 0 <= i < |steps| && steps[i].PublishCalled? ==> 0 < i && steps[i - 1] == StoreCalled
  }

  /** The steps of one action after another: the property holds for a whole
      sequence of requests when it holds for each. */
  lemma RequestsFollowStoreCalls(a: seq<Step>, b: seq<Step>)
    requires PublishesFollowStoreCalls(a) && PublishesFollowStoreCalls(b)
    ensures PublishesFollowStoreCalls(a + b)
  {
    var s := a + b;
    forall i | 0 <= i < |s| && s[i].PublishCalled? ensures 0 < i && s[i - 1] == StoreCalled {
      if i < |a| {
        assert s[i] == a[i] && s[i - 1] == a[i - 1];
      } else {
        assert s[i] == b[i - |a|];
        assert s[i - 1] == b[i - |a| - 1];
      }
    }
  }

  /** What a publish takes from its environment: the id `Guid.NewGuid()`
      gives the message, the clock reading `DateTime.UtcNow` gives its
      `CreatedAt`, and whether creating the sender or the send throws. */
  datatype PublishEnv = PublishEnv(messageId: Guid, clock: Instant, createThrows: bool, sendThrows: bool)
}
