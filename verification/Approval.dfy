/** The Tier 2 approval flow: an intent is proposed, a human decides through a
    channel, and an approved intent is executed. The two sections that hold the
    lock are `Claim` and `Finish`; the channel is consulted between them. */
module Approval {
  import opened Prelude
  import opened Screening

  type IntentId = seq<byte>
  type Peer = Bytes32
  type Hash = seq<byte>
  type Instant = nat
  type Duration = nat

  datatype DryRunDiffEntry = DryRunDiffEntry(key: string, current: string, proposed: string)

  datatype Intent = Intent(
    id: IntentId,
    proposer: Peer,
    capability: string,
    parameters: seq<Constraint>,
    dryRunDiff: Option<seq<DryRunDiffEntry>>,
    parameterHash: Hash,
    submittedAt: Instant,
    expiresAt: Instant)

  datatype IntentStatus =
    | Pending | InProgress | Denied | Expired | ParameterHashMismatch | Executed | ExecutionFailed

  datatype ApprovalRequest = ApprovalRequest(
    intentId: IntentId,
    proposer: Peer,
    capability: string,
    parameters: seq<Constraint>,
    dryRunDiff: Option<seq<DryRunDiffEntry>>,
    parameterHash: Hash,
    remaining: Duration)

  datatype ApprovalDecision = ApprovalDecision(intentId: IntentId, approved: bool, channelName: string)

  /** What running a capability returned: a detail, or an error text. */
  type Outcome = Result<string, string>

  datatype ExecutionResult = ExecutionResult(intentId: IntentId, outcome: Outcome, executedAt: Instant)

  datatype LinkedRecord = LinkedRecord(
    intent: Intent,
    decision: Option<ApprovalDecision>,
    execution: Option<ExecutionResult>,
    status: IntentStatus)

  type Records = map<IntentId, LinkedRecord>

  datatype FlowError = UnknownIntent | IntentExpired | HashMismatch | Channel(message: string) | MismatchedDecision

  /** How a capability and its parameters are bound: a hash whose preimage is
      not self-delimiting, so nothing is assumed of it. */
  type Hasher = (string, seq<Constraint>) -> Hash

  predicate Terminal(s: IntentStatus) {
    s != Pending && s != InProgress
  }

  predicate IsExpired(i: Intent, now: Instant) {
    now >= i.expiresAt
  }

  predicate HashVerified(hash: Hasher, i: Intent) {
    hash(i.capability, i.parameters) == i.parameterHash
  }

  function RequestOf(i: Intent, now: Instant): ApprovalRequest {
    ApprovalRequest(i.id, i.proposer, i.capability, i.parameters, i.dryRunDiff, i.parameterHash,
                    SatSub(i.expiresAt, now))
  }

  function NewIntent(hash: Hasher, id: IntentId, proposer: Peer, capability: string, parameters: seq<Constraint>,
                     diff: Option<seq<DryRunDiffEntry>>, expiry: Duration, now: Instant): Intent
  {
    Intent(id, proposer, capability, parameters, diff, hash(capability, parameters), now, now + expiry)
  }

  /** What the first locked section hands on: a request for the channel, or the call's result. */
  datatype Claimed = Consult(request: ApprovalRequest) | Done(result: Result<IntentStatus, FlowError>)

  function SetStatus(records: Records, id: IntentId, status: IntentStatus): Records
    requires id in records
  {
    records[id := records[id].(status := status)]
  }

  function ClaimResult(hash: Hasher, records: Records, id: IntentId, now: Instant): Claimed {
    if id !in records then Done(Err(UnknownIntent))
    else
      var r := records[id];
      if r.status != Pending then Done(Ok(r.status))
      else if IsExpired(r.intent, now) then Done(Err(IntentExpired))
      else if !HashVerified(hash, r.intent) then Done(Err(HashMismatch))
      else Consult(RequestOf(r.intent, now))
  }

  function ClaimRecords(hash: Hasher, records: Records, id: IntentId, now: Instant): Records {
    if id !in records || records[id].status != Pending then records
    else if IsExpired(records[id].intent, now) then SetStatus(records, id, Expired)
    else if !HashVerified(hash, records[id].intent) then SetStatus(records, id, ParameterHashMismatch)
    else SetStatus(records, id, InProgress)
  }

  /** The second locked section runs the capability exactly when this holds. */
  predicate Executes(hash: Hasher, records: Records, id: IntentId, decision: ApprovalDecision, now: Instant) {
    && id in records
    && decision.approved
    && !IsExpired(records[id].intent, now)
    && HashVerified(hash, records[id].intent)
  }

  function StatusOf(outcome: Outcome): IntentStatus {
    if outcome.Ok? then Executed else ExecutionFailed
  }

  function FinishResult(hash: Hasher, records: Records, id: IntentId, decision: ApprovalDecision,
                        outcome: Outcome, now: Instant): Result<IntentStatus, FlowError>
  {
    if id !in records then Err(UnknownIntent)
    else if !decision.approved then Ok(Denied)
    else if IsExpired(records[id].intent, now) then Err(IntentExpired)
    else if !HashVerified(hash, records[id].intent) then Err(HashMismatch)
    else Ok(StatusOf(outcome))
  }

  function FinishStatus(hash: Hasher, r: LinkedRecord, decision: ApprovalDecision, outcome: Outcome,
                        now: Instant): IntentStatus {
    if !decision.approved then Denied
    else if IsExpired(r.intent, now) then Expired
    else if !HashVerified(hash, r.intent) then ParameterHashMismatch
    else StatusOf(outcome)
  }

  function FinishRecords(hash: Hasher, records: Records, id: IntentId, decision: ApprovalDecision,
                         outcome: Outcome, now: Instant): Records
  {
    if id !in records then records
    else
      var r := records[id];
      records[id := LinkedRecord(
        r.intent,
        Some(decision),
        if Executes(hash, records, id, decision, now) then Some(ExecutionResult(id, outcome, now)) else r.execution,
        FinishStatus(hash, r, decision, outcome, now))]
  }

  /** The channel is consulted exactly about a pending intent that has not expired and
      still has the captured hash, and is shown that intent and the time that is left. */
  lemma ConsultsIff(hash: Hasher, records: Records, id: IntentId, now: Instant)
    ensures ClaimResult(hash, records, id, now).Consult? <==>
            && id in records && records[id].status == Pending && now < records[id].intent.expiresAt
            && hash(records[id].intent.capability, records[id].intent.parameters) == records[id].intent.parameterHash
    ensures ClaimResult(hash, records, id, now).Consult? ==>
              var req, i := ClaimResult(hash, records, id, now).request, records[id].intent;
              && req.intentId == i.id && req.proposer == i.proposer && req.capability == i.capability
              && req.parameters == i.parameters && req.dryRunDiff == i.dryRunDiff
              && req.parameterHash == i.parameterHash && now + req.remaining == i.expiresAt
  {
  }

  /** The first section changes at most the status, of a pending intent only: to expired,
      to drifted, or to in progress. */
  lemma ClaimExact(hash: Hasher, records: Records, id: IntentId, now: Instant)
    ensures var after := ClaimRecords(hash, records, id, now);
            if id !in records || records[id].status != Pending then after == records
            else
              var i := records[id].intent;
              after == records[id := records[id].(status :=
                if now >= i.expiresAt then Expired
                else if hash(i.capability, i.parameters) != i.parameterHash then ParameterHashMismatch
                else InProgress)]
  {
  }

  /** The second section records the decision, and with it a denial, an expiry, a drift, or
      the run and whether it succeeded. */
  lemma FinishExact(hash: Hasher, records: Records, id: IntentId, decision: ApprovalDecision, outcome: Outcome,
                    now: Instant)
    ensures var after := FinishRecords(hash, records, id, decision, outcome, now);
            var result := FinishResult(hash, records, id, decision, outcome, now);
            if id !in records then result == Err(UnknownIntent) && after == records
            else
              var r := records[id].(decision := Some(decision));
              if !decision.approved then result == Ok(Denied) && after == records[id := r.(status := Denied)]
              else if now >= r.intent.expiresAt then
                result == Err(IntentExpired) && after == records[id := r.(status := Expired)]
              else if hash(r.intent.capability, r.intent.parameters) != r.intent.parameterHash then
                result == Err(HashMismatch) && after == records[id := r.(status := ParameterHashMismatch)]
              else
                && result == Ok(if outcome.Ok? then Executed else ExecutionFailed)
                && after == records[id := r.(execution := Some(ExecutionResult(id, outcome, now)),
                                             status := if outcome.Ok? then Executed else ExecutionFailed)]
  {
  }

  /** What the first section returns is what the record then says: every error but
      the unknown intent leaves its own status. */
  lemma ClaimIsRecorded(hash: Hasher, records: Records, id: IntentId, now: Instant)
    ensures var after := ClaimRecords(hash, records, id, now);
            match ClaimResult(hash, records, id, now)
            case Consult(_) => id in after && after[id].status == InProgress
            case Done(Ok(s)) => id in after && after == records && after[id].status == s
            case Done(Err(e)) =>
              if e == UnknownIntent then id !in records && after == records
              else id in after && Some(after[id].status) == StatusFor(e)
  {
  }

  /** So does the second: an error leaves its own status, a result the status it is. */
  lemma FinishIsRecorded(hash: Hasher, records: Records, id: IntentId, decision: ApprovalDecision,
                         outcome: Outcome, now: Instant)
    ensures var after := FinishRecords(hash, records, id, decision, outcome, now);
            match FinishResult(hash, records, id, decision, outcome, now)
            case Ok(s) => id in after && after[id].status == s && Terminal(s)
            case Err(e) =>
              if e == UnknownIntent then id !in records && after == records
              else id in after && Some(after[id].status) == StatusFor(e)
  {
  }

  /** The status documented to go with an error, where the code records one. */
  function StatusFor(e: FlowError): Option<IntentStatus> {
    match e
    case IntentExpired => Some(Expired)
    case HashMismatch => Some(ParameterHashMismatch)
    case _ => None
  }

  function ProposeRecords(hash: Hasher, records: Records, intent: Intent): Records {
    records[intent.id := LinkedRecord(intent, None, None, Pending)]
  }

  /** The flow object. Identifiers are drawn at random; the drawn one, the clock
      readings, the channel's answer and the capability's outcome are arguments. */
  class Tier2ApprovalFlow {
    const hash: Hasher
    const screen: Screen
    const lower: string -> string
    const defaultExpiry: Duration
    var records: Records

    constructor (hash: Hasher, screen: Screen, lower: string -> string, defaultExpiry: Duration)
      ensures this.hash == hash && this.screen == screen && this.lower == lower
      ensures this.defaultExpiry == defaultExpiry && records == map[]
    {
      this.hash := hash;
      this.screen := screen;
      this.lower := lower;
      this.defaultExpiry := defaultExpiry;
      records := map[];
    }

    method ProposeWithExpiry(id: IntentId, proposer: Peer, capability: string, parameters: seq<Constraint>,
                             diff: Option<seq<DryRunDiffEntry>>, expiry: Duration, now: Instant)
      returns (r: Result<IntentId, ProposeError>)
      modifies this
      ensures var rejection := Rejection(screen, lower, capability, parameters);
              match rejection
              case Some(e) => r == Err(e) && records == old(records)
              case None =>
                && r == Ok(id)
                && records == ProposeRecords(hash, old(records),
                     NewIntent(hash, id, proposer, capability, parameters, diff, expiry, now))
    {
      if screen.protected.None? {
        return Err(ProtectedResourceSectionMissing);
      }
      var m := FindProtectedMatch(screen.protected.value, parameters);
      if m.Some? {
        return Err(TargetsProtectedResource(m.value));
      }
      var d := CheckDenied(screen, lower, capability, parameters);
      if d.Some? {
        return Err(ArgumentConstraintViolation(d.value));
      }
      var intent := NewIntent(hash, id, proposer, capability, parameters, diff, expiry, now);
      records := records[id := LinkedRecord(intent, None, None, Pending)];
      return Ok(id);
    }

    method Claim(id: IntentId, now: Instant) returns (r: Claimed)
      modifies this
      ensures r == ClaimResult(hash, old(records), id, now)
      ensures records == ClaimRecords(hash, old(records), id, now)
    {
      if id !in records {
        return Done(Err(UnknownIntent));
      }
      var record := records[id];
      if record.status != Pending {
        return Done(Ok(record.status));
      }
      if IsExpired(record.intent, now) {
        records := records[id := record.(status := Expired)];
        return Done(Err(IntentExpired));
      }
      if !HashVerified(hash, record.intent) {
        records := records[id := record.(status := ParameterHashMismatch)];
        return Done(Err(HashMismatch));
      }
      records := records[id := record.(status := InProgress)];
      return Consult(RequestOf(record.intent, now));
    }

    method Finish(id: IntentId, decision: ApprovalDecision, execute: seq<Constraint> -> Outcome, now: Instant)
      returns (r: Result<IntentStatus, FlowError>)
      modifies this
      ensures var outcome := if id in old(records) then execute(old(records)[id].intent.parameters) else Err("");
              && r == FinishResult(hash, old(records), id, decision, outcome, now)
              && records == FinishRecords(hash, old(records), id, decision, outcome, now)
    {
      if id !in records {
        return Err(UnknownIntent);
      }
      var record := records[id].(decision := Some(decision));
      if !decision.approved {
        records := records[id := record.(status := Denied)];
        return Ok(Denied);
      }
      if IsExpired(record.intent, now) {
        records := records[id := record.(status := Expired)];
        return Err(IntentExpired);
      }
      if !HashVerified(hash, record.intent) {
        records := records[id := record.(status := ParameterHashMismatch)];
        return Err(HashMismatch);
      }
      var outcome := execute(record.intent.parameters);
      var status := if outcome.Ok? then Executed else ExecutionFailed;
      records := records[id := record.(execution := Some(ExecutionResult(id, outcome, now)), status := status)];
      return Ok(status);
    }

    /** One whole call, when nothing else touches the flow while the channel is
        asked: it never runs the capability on anything but what was shown. */
    method DecideAndExecute(id: IntentId, channel: ApprovalRequest -> Result<ApprovalDecision, string>,
                            execute: seq<Constraint> -> Outcome, claimedAt: Instant, decidedAt: Instant)
      returns (r: Result<IntentStatus, FlowError>)
      modifies this
      ensures var claimed := ClaimResult(hash, old(records), id, claimedAt);
              var mid := ClaimRecords(hash, old(records), id, claimedAt);
              match claimed
              case Done(result) => r == result && records == mid
              case Consult(request) =>
                match channel(request)
                case Err(e) => r == Err(Channel(e)) && records == mid
                case Ok(d) =>
                  if d.intentId != id then r == Err(MismatchedDecision) && records == mid
                  else
                    && r == FinishResult(hash, mid, id, d, execute(request.parameters), decidedAt)
                    && records == FinishRecords(hash, mid, id, d, execute(request.parameters), decidedAt)
    {
      var claimed := Claim(id, claimedAt);
      if claimed.Done? {
        return claimed.result;
      }
      var answer := channel(claimed.request);
      if answer.Err? {
        return Err(Channel(answer.error));
      }
      if answer.value.intentId != id {
        return Err(MismatchedDecision);
      }
      r := Finish(id, answer.value, execute, decidedAt);
    }

    /** Test support: overwrite an intent's parameters, leaving its hash. */
    method Tamper(id: IntentId, parameters: seq<Constraint>) returns (known: bool)
      modifies this
      ensures known == (id in old(records))
      ensures records == TamperRecords(old(records), id, parameters)
    {
      if id !in records {
        return false;
      }
      var record := records[id];
      records := records[id := record.(intent := record.intent.(parameters := parameters))];
      return true;
    }
  }

  function TamperRecords(records: Records, id: IntentId, parameters: seq<Constraint>): Records {
    if id !in records then records
    else records[id := records[id].(intent := records[id].intent.(parameters := parameters))]
  }

  /** Overwriting leaves the identity, the captured hash and the times of an intent, and
      every other record, as they were. */
  lemma TamperExact(records: Records, id: IntentId, parameters: seq<Constraint>)
    ensures var after := TamperRecords(records, id, parameters);
            && after.Keys == records.Keys
            && (forall j :: j in records && j != id ==> after[j] == records[j])
            && (id in records ==>
                  && after[id].intent.parameters == parameters
                  && after[id].intent == records[id].intent.(parameters := parameters)
                  && after[id] == records[id].(intent := after[id].intent))
  {
  }
}
