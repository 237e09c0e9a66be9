/** One delivery attempt: the walk over the recipient's mail exchangers and what it makes of their answers. */
module Mailer {
  import opened Wrappers

  /** `permanent` for 5xx and the like; anything else is retried by the queue. */
  datatype DeliveryError = DeliveryError(permanent: bool, msg: string)

  type Outcome = Result<string, DeliveryError>

  /** What one host's SMTP transaction ends with; `Broken` is an error that is not a delivery error. */
  datatype Answer = Accepted(resp: string) | Refused(error: DeliveryError) | Broken(msg: string)

  datatype Lookup = Hosts(answers: seq<Answer>) | LookupRefused(error: DeliveryError) | LookupBroken(msg: string)

  function Temporary(msg: string): DeliveryError {
    DeliveryError(false, msg)
  }

  function ErrorOf(a: Answer): DeliveryError
    requires !a.Accepted?
  {
    if a.Refused? then a.error else Temporary("delivery failed: " + a.msg)
  }

  /** A host whose answer ends the walk. */
  predicate Decides(a: Answer) {
    a.Accepted? || (a.Refused? && a.error.permanent)
  }

  function OutcomeOf(a: Answer): Outcome {
    if a.Accepted? then Ok(a.resp) else Err(ErrorOf(a))
  }

  /** The address has a domain part. */
  predicate Addressed(to: string) {
    exists i :: 0 <= i < |to| - 1 && to[i] == '@' && '@' !in to[i + 1..]
  }

  /** The first deciding answer, else the last one. */
  ghost predicate Walked(answers: seq<Answer>, tried: nat, out: Outcome) {
    if answers == [] then tried == 0 && out == Err(Temporary("no MX hosts available"))
    else
      && 1 <= tried <= |answers| && out == OutcomeOf(answers[tried - 1])
      && (forall i :: 0 <= i < tried - 1 ==> !Decides(answers[i]))
      && (tried < |answers| ==> Decides(answers[tried - 1]))
  }

  method WalkHosts(answers: seq<Answer>) returns (tried: nat, out: Outcome)
    ensures Walked(answers, tried, out)
  {
    var lastErr: Option<DeliveryError> := None;
    for i := 0 to |answers|
      invariant forall j :: 0 <= j < i ==> !Decides(answers[j])
      invariant lastErr == if i == 0 then None else Some(ErrorOf(answers[i - 1]))
    {
      match answers[i]
      case Accepted(resp) => return i + 1, Ok(resp);
      case Refused(e) =>
        lastErr := Some(e);
        if e.permanent {
          return i + 1, Err(e);
        }
      case Broken(msg) => lastErr := Some(Temporary("delivery failed: " + msg));
    }
    if lastErr.None? {
      lastErr := Some(Temporary("no MX hosts available"));
    }
    return |answers|, Err(lastErr.value);
  }

  /** Delivery through the smarthost if there is one, else by MX; `relay` and `lookup` are what the network answers. */
  method Deliver(to: string, relay: Option<Outcome>, lookup: Lookup) returns (out: Outcome)
    ensures relay.Some? ==> out == relay.value
    ensures relay.None? && !Addressed(to) ==> out.Err? && out.error.permanent
    ensures relay.None? && Addressed(to) ==>
              match lookup
              case Hosts(answers) => exists tried :: Walked(answers, tried, out)
              case LookupRefused(e) => out == Err(e)
              case LookupBroken(_) => out.Err? && !out.error.permanent
  {
    if relay.Some? {
      return relay.value;
    }
    var at := |to|;
    while at > 0 && to[at - 1] != '@'
      invariant 0 <= at <= |to| && '@' !in to[at..]
    {
      at := at - 1;
    }
    if at == 0 || at == |to| {
      return Err(DeliveryError(true, "invalid recipient address"));
    }
    assert Addressed(to) by {
      assert to[at - 1] == '@';
    }
    match lookup
    case Hosts(answers) =>
      var tried;
      tried, out := WalkHosts(answers);
    case LookupRefused(e) => out := Err(e);
    case LookupBroken(msg) => out := Err(Temporary("MX lookup failed: " + msg));
  }

  /** The host at `k` accepts and no host before it gives up the message. */
  predicate AcceptedAt(answers: seq<Answer>, k: nat) {
    k < |answers| && answers[k].Accepted? && forall i :: 0 <= i < k ==> !Decides(answers[i])
  }

  predicate RefusedAt(answers: seq<Answer>, k: nat) {
    k < |answers| && Decides(answers[k]) && !answers[k].Accepted? && forall i :: 0 <= i < k ==> !Decides(answers[i])
  }

  /** The response is that of the accepting host; the error that of the host that refused for good, or else of the last. */
  lemma OutcomeIsTheHosts(answers: seq<Answer>, tried: nat, out: Outcome)
    requires Walked(answers, tried, out) && answers != []
    ensures match answers[tried - 1]
            case Accepted(resp) => out == Ok(resp)
            case Refused(e) => out == Err(e)
            case Broken(_) => out.Err? && !out.error.permanent
    ensures out.Err? && !out.error.permanent ==> tried == |answers|
  {
  }

  /**
   The message is accepted exactly when some host accepts it before any refuses it for good, fails for good exactly
   when some host refuses it for good before any accepts, and is otherwise to be retried.
   */
  lemma OutcomeIff(answers: seq<Answer>, tried: nat, out: Outcome)
    requires Walked(answers, tried, out)
    ensures out.Ok? <==> exists k: nat :: AcceptedAt(answers, k)
    ensures out.Err? && out.error.permanent <==> exists k: nat :: RefusedAt(answers, k)
  {
    if out.Ok? {
      assert AcceptedAt(answers, tried - 1);
    }
    if out.Err? && out.error.permanent {
      assert RefusedAt(answers, tried - 1);
    }
    if k: nat :| AcceptedAt(answers, k) || RefusedAt(answers, k) {
      assert Decides(answers[k]);
      assert k == tried - 1;
    }
  }
}
