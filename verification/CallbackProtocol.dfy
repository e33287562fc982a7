/** The messages a webhook actor sends to its owner, and the order it promises. */
module CallbackProtocol {
  datatype Message =
    | WebhookVerified
    | WebhookSuccess
    | WebhookError
    | WebhookClosed(ok: bool)
    | SendQuery

  /** Closing is announced once and last; a failure to open is announced only by
      an actor never verified; errors and queries come only after verification. */
  predicate Orderly(ms: seq<Message>) {
    && (forall i | 0 <= i < |ms| && ms[i].WebhookClosed? :: i == |ms| - 1)
    && (forall i | 0 <= i < |ms| && ms[i] == WebhookClosed(false) :: WebhookVerified !in ms)
    && (forall i | 0 <= i < |ms| && (ms[i].WebhookError? || ms[i].SendQuery?) :: WebhookVerified in ms[..i])
  }

  /** The owner heard of a success before it heard of the verification. */
  predicate EarlySuccess(ms: seq<Message>) {
    exists i | 0 <= i < |ms| :: ms[i].WebhookSuccess? && WebhookVerified !in ms[..i]
  }

  predicate NotClosed(ms: seq<Message>) {
    forall i | 0 <= i < |ms| :: !ms[i].WebhookClosed?
  }

  /** What may be sent next by an actor that has not closed. */
  predicate MaySend(ms: seq<Message>, m: Message) {
    match m
    case WebhookClosed(ok) => ok || WebhookVerified !in ms
    case WebhookError | SendQuery => WebhookVerified in ms
    case _ => true
  }

  lemma SendKeepsOrderly(ms: seq<Message>, m: Message)
    requires Orderly(ms) && NotClosed(ms) && MaySend(ms, m)
    ensures Orderly(ms + [m])
    ensures NotClosed(ms + [m]) <==> !m.WebhookClosed?
    ensures EarlySuccess(ms + [m]) <==> EarlySuccess(ms) || (m.WebhookSuccess? && WebhookVerified !in ms)
  {
    var ms' := ms + [m];
    assert ms'[..|ms|] == ms;
    assert ms'[|ms|] == m;
    assert forall i | 0 <= i < |ms| :: ms'[..i] == ms[..i] && ms'[i] == ms[i];
  }
}
