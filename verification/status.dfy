// Submission status records (status.rs, error.rs).
module Statuses {
  import opened Prelude

  type Id = string

  // Wall-clock instants in nanoseconds.
  type Instant = int
  const NANOS_PER_SECOND: int := 1_000_000_000

  datatype Status = Received | Rejected | SubmissionStarted | SmtpAccepted | SmtpFailed

  predicate Terminal(s: Status) {
    s.Rejected? || s.SmtpAccepted? || s.SmtpFailed?
  }

  datatype ErrorCode =
    | BadRequest | ValidationFailed | Unauthorized | Forbidden | PayloadTooLarge | UnsupportedMediaType
    | RateLimitExceeded | SmtpUnavailable | SmtpRejectedMessage | SubmissionNotFound | StatusStoreUnavailable
    | FeatureDisabled | InternalError

  datatype Record = Record(
    id: Id, owner: KeyId, status: Status, code: Option<ErrorCode>, message: Option<string>,
    domains: seq<string>, count: nat, created: Instant, updated: Instant, expires: Instant)

  datatype Update = Update(status: Status, code: Option<ErrorCode>, message: Option<string>)

  function NewReceived(id: Id, owner: KeyId, ttlSeconds: nat, now: Instant): Record {
    Record(id, owner, Received, None, Some("Submission received."), [], 0,
           now, now, now + ttlSeconds * NANOS_PER_SECOND)
  }

  // Strict: a record is still served at the very instant it expires.
  predicate Expired(r: Record, now: Instant) {
    now > r.expires
  }

  // The edges of the lifecycle.
  predicate Edge(from: Status, to: Status) {
    || (from.Received? && (to.Rejected? || to.SubmissionStarted?))
    || (from.SubmissionStarted? && (to.SmtpAccepted? || to.SmtpFailed?))
  }

  // Reachable along edges, in any number of steps.
  predicate Leads(from: Status, to: Status) {
    from == to || from.Received? || Edge(from, to)
  }

  // The lifecycle spelled out, with its three final statuses.
  lemma LifecycleSpelledOut(to: Status)
    ensures Leads(Received, to)
    ensures Leads(SubmissionStarted, to) <==> to == SubmissionStarted || to == SmtpAccepted || to == SmtpFailed
    ensures Leads(Rejected, to) <==> to == Rejected
    ensures Leads(SmtpAccepted, to) <==> to == SmtpAccepted
    ensures Leads(SmtpFailed, to) <==> to == SmtpFailed
    ensures Edge(Received, to) <==> to == Rejected || to == SubmissionStarted
    ensures Edge(SubmissionStarted, to) <==> to == SmtpAccepted || to == SmtpFailed
    ensures !Edge(Rejected, to) && !Edge(SmtpAccepted, to) && !Edge(SmtpFailed, to)
    ensures Terminal(to) <==> to == Rejected || to == SmtpAccepted || to == SmtpFailed
  {
  }

  // A record may look like this later in its life: the identity and the lifetime are fixed, the
  // status only moves along edges, and a terminal status keeps its code and message.
  predicate Follows(r: Record, later: Record) {
    && later.id == r.id && later.owner == r.owner && later.created == r.created && later.expires == r.expires
    && Leads(r.status, later.status)
    && (Terminal(r.status) ==> later.status == r.status && later.code == r.code && later.message == r.message)
  }

  lemma FollowsIsTransitive(a: Record, b: Record, c: Record)
    requires Follows(a, b) && Follows(b, c)
    ensures Follows(a, c)
  {
  }

  ghost predicate IsPath(path: seq<Status>, from: Status, to: Status) {
    && path != [] && path[0] == from && path[|path| - 1] == to
    && (forall i :: 0 <= i < |path| - 1 ==> Edge(path[i], path[i + 1]))
  }

  lemma {:induction false} PathLeads(path: seq<Status>, from: Status, to: Status)
    requires IsPath(path, from, to)
    ensures Leads(from, to)
    decreases |path|
  {
    if |path| > 1 {
      assert Edge(path[0], path[1]);
      var rest := path[1..];
      assert forall i :: 0 <= i < |rest| - 1 ==> Edge(rest[i], rest[i + 1]);
      PathLeads(rest, path[1], to);
    }
  }

  // Leads is exactly the reflexive and transitive closure of the edges.
  lemma LeadsIsPaths(from: Status, to: Status)
    ensures Leads(from, to) <==> exists path: seq<Status> :: IsPath(path, from, to)
  {
    if Leads(from, to) {
      if from == to {
        assert IsPath([from], from, to);
      } else if Edge(from, to) {
        assert IsPath([from, to], from, to);
      } else {
        assert IsPath([from, SubmissionStarted, to], from, to);
      }
    }
    forall path: seq<Status> | IsPath(path, from, to)
      ensures Leads(from, to)
    {
      PathLeads(path, from, to);
    }
  }
}
