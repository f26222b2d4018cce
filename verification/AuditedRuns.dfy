/** What the audit log says of intents that went through the approval flow. */
module AuditedRuns {
  import opened Prelude
  import opened Screening
  import opened Approval
  import opened ApprovalRuns
  import Audit
  import Hex

  /** Whether the capability was run for the intent with this history. */
  predicate Ran(t: seq<Event>) {
    exists n :: 0 <= n < |t| && t[n].Ran?
  }

  /** What an entry says of the outcome `o` of running a capability. */
  function Reported(o: Outcome): Audit.AuditOutcome {
    match o
    case Ok(detail) => Audit.Success(Some(detail))
    case Err(error) => Audit.Failure(error)
  }

  lemma HistoryOfRecord(cfg: Config, id: IntentId, r: LinkedRecord, t: seq<Event>)
    requires IntentOk(cfg, id, r, t)
    ensures Ran(t) <==> |t| == 4
    ensures Ran(t) <==> r.status == Executed || r.status == ExecutionFailed
    ensures Ran(t) ==> t[3].Ran? && r.execution.Some? && r.execution.value.outcome == t[3].outcome
    ensures forall n :: 0 <= n < |t| && t[n].Ran? ==> n == 3
  {
    if |t| == 4 {
      assert t[3].Ran?;
    }
  }

  lemma EventOfRecord(r: LinkedRecord, timestamp: nat, now: Instant)
    requires (r.status == Executed || r.status == ExecutionFailed) ==> r.execution.Some?
    ensures var e := Audit.Tier2Event(r, timestamp, now);
            && (e.Err? <==> !Terminal(r.status))
            && (e.Ok? ==> (e.value.decision.allowed <==> r.status == Executed || r.status == ExecutionFailed))
            && (e.Ok? ==> (e.value.outcome.Some? <==> e.value.decision.allowed))
            && (e.Ok? && e.value.outcome.Some? ==> e.value.outcome.value == Reported(r.execution.value.outcome))
  {
  }

  /** What a refusal says of its reason. */
  function Reason(status: IntentStatus, channel: string): string {
    match status
    case Denied => "denied by " + channel
    case Expired => "expired before an approval decision was reached"
    case ParameterHashMismatch =>
      "parameters drifted from the hash captured at proposal time - rejected " +
      "rather than approved against parameters that no longer match what was hashed"
    case _ => "approved by " + channel
  }

  /** The name of the channel that decided, if one did. */
  function ChannelOf(t: seq<Event>): string {
    if |t| >= 3 && t[2].Decided? then t[2].decision.channelName else "unknown channel"
  }

  lemma EventOfHistory(cfg: Config, id: IntentId, r: LinkedRecord, t: seq<Event>, timestamp: nat, now: Instant)
    requires IntentOk(cfg, id, r, t) && Terminal(r.status)
    ensures var e := Audit.Tier2Event(r, timestamp, now);
            && e.Ok? && e.value.timestamp == timestamp
            && e.value.caller == Hex.Encode(t[0].proposer) && e.value.capability == t[0].capability
            && e.value.tier == "tier2" && e.value.intentId == Some(Hex.Encode(id))
            && e.value.parameters == r.intent.parameters
            && e.value.decision.reason == Reason(r.status, ChannelOf(t))
            && e.value.duration == if Ran(t) then SatSub(t[3].at, t[0].submittedAt) else SatSub(now, t[0].submittedAt)
  {
    HistoryOfRecord(cfg, id, r, t);
  }

  /** For every intent of every run: there is no entry before a terminal status; the line
      that is then written says allowed, and carries an outcome, exactly when the
      capability was run, and the outcome is what running it returned. It names who
      proposed what under which identifier, the reason, and how long it took. */
  lemma EntryTellsWhetherRan(cfg: Config, steps: seq<Step>, w: World, id: IntentId, timestamp: nat, now: Instant,
                             hash: Audit.Hasher, format: ConstraintValue -> string, s: Audit.ChainState)
    requires w == Run(cfg, INIT, steps) && id in w.records
    ensures id in w.trace
    ensures Audit.Tier2Event(w.records[id], timestamp, now).Err? <==> !Terminal(w.records[id].status)
    ensures Terminal(w.records[id].status) ==>
              var t := w.trace[id];
              var line := Audit.LineFor(hash, format, Audit.Tier2Event(w.records[id], timestamp, now).value, s);
              line.Parsed? && t != [] && t[0].Proposed? &&
              var c := line.entry.content;
              && (c.decision.allowed <==> Ran(t)) && (c.outcome.Some? <==> Ran(t))
              && (forall n :: 0 <= n < |t| && t[n].Ran? ==>
                    && c.outcome == Some(Reported(t[n].outcome))
                    && c.duration == SatSub(t[n].at, t[0].submittedAt))
              && (!Ran(t) ==> c.duration == SatSub(now, t[0].submittedAt))
              && c.caller == Hex.Encode(t[0].proposer) && c.capability == t[0].capability && c.tier == "tier2"
              && c.intentId == Some(Hex.Encode(id)) && c.timestamp == timestamp
              && c.decision.reason == Reason(w.records[id].status, ChannelOf(t))
              && |c.parameters| == |w.records[id].intent.parameters|
              && forall i :: 0 <= i < |c.parameters| ==>
                   Audit.TellsParameter(format, c.parameters[i], w.records[id].intent.parameters[i])
  {
    KeptByRun(cfg, INIT, steps);
    var r, t := w.records[id], w.trace[id];
    assert IntentOk(cfg, id, r, t);
    HistoryOfRecord(cfg, id, r, t);
    EventOfRecord(r, timestamp, now);
    if Terminal(r.status) {
      EventOfHistory(cfg, id, r, t, timestamp, now);
      Audit.LineTells(hash, format, Audit.Tier2Event(r, timestamp, now).value, s);
    }
  }

  /** And that line is the one a synced log call adds to a file that ends in a newline. */
  lemma LineIsWritten(hash: Audit.Hasher, format: ConstraintValue -> string, d: Audit.Disk, s: Audit.ChainState,
                      e: Audit.Event)
    requires d.ended
    ensures Audit.FileAfter(hash, format, d, s, e, Audit.Synced)
         == Audit.Disk(d.lines + [Audit.LineFor(hash, format, e, s)], true)
  {
  }
}
