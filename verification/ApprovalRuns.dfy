/** Every interleaving of concurrent calls into one approval flow. A call is
    three atomic parts (claim under the lock, ask the channel, finish under the
    lock), the clock may advance anywhere, and stored parameters may be
    overwritten at any time. */
module ApprovalRuns {
  import opened Prelude
  import opened MacScan
  import opened Screening
  import opened Approval

  type CallId = nat

  /** The parameter hash, and which proposals pass screening. */
  datatype Config = Config(hash: Hasher, passes: (string, seq<Constraint>) -> bool)

  /** What has happened to one intent, in order. */
  datatype Event =
    | Proposed(proposer: Peer, capability: string, parameters: seq<Constraint>, diff: Option<seq<DryRunDiffEntry>>,
               submittedAt: Instant, expiresAt: Instant)
    | Consulted(call: CallId, request: ApprovalRequest, claimedAt: Instant)
    | Decided(call: CallId, decision: ApprovalDecision)
    | Ran(call: CallId, parameters: seq<Constraint>, outcome: Outcome, at: Instant)

  /** A call between its claim and its finish. */
  datatype Call =
    | Claimant(id: IntentId, request: ApprovalRequest, claimedAt: Instant)
    | Waiting(id: IntentId, request: ApprovalRequest, claimedAt: Instant)
    | Answered(id: IntentId, request: ApprovalRequest, claimedAt: Instant, decision: ApprovalDecision)

  datatype World = World(
    now: Instant,
    records: Records,
    calls: map<CallId, Call>,
    trace: map<IntentId, seq<Event>>)

  datatype Step =
    | Tick(elapsed: Duration)
    | Propose(id: IntentId, proposer: Peer, capability: string, parameters: seq<Constraint>,
              diff: Option<seq<DryRunDiffEntry>>, expiry: Duration)
    | Begin(call: CallId, id: IntentId)
    | Ask(call: CallId)
    | Answer(call: CallId, answer: Result<ApprovalDecision, string>)
    | Complete(call: CallId, outcome: Outcome)
    | Overwrite(id: IntentId, parameters: seq<Constraint>)

  const INIT: World := World(0, map[], map[], map[])

  function Append(trace: map<IntentId, seq<Event>>, id: IntentId, e: Event): map<IntentId, seq<Event>>
    requires id in trace
  {
    trace[id := trace[id] + [e]]
  }

  /** Intent and call identifiers are fresh: a step that reuses one does nothing. */
  function Next(cfg: Config, w: World, s: Step): World {
    match s
    case Tick(d) => w.(now := w.now + d)
    case Propose(id, proposer, capability, parameters, diff, expiry) =>
      if id in w.records || id in w.trace || !cfg.passes(capability, parameters) then w
      else
        var intent := NewIntent(cfg.hash, id, proposer, capability, parameters, diff, expiry, w.now);
        w.(records := ProposeRecords(cfg.hash, w.records, intent),
           trace := w.trace[id := [Proposed(proposer, capability, parameters, diff, w.now, w.now + expiry)]])
    case Begin(call, id) =>
      if call in w.calls then w
      else
        var claimed := ClaimResult(cfg.hash, w.records, id, w.now);
        w.(records := ClaimRecords(cfg.hash, w.records, id, w.now),
           calls := if claimed.Consult? then w.calls[call := Claimant(id, claimed.request, w.now)] else w.calls)
    case Ask(call) =>
      if call !in w.calls || !w.calls[call].Claimant? || w.calls[call].id !in w.trace then w
      else
        var c := w.calls[call];
        w.(calls := w.calls[call := Waiting(c.id, c.request, c.claimedAt)],
           trace := Append(w.trace, c.id, Consulted(call, c.request, c.claimedAt)))
    case Answer(call, answer) =>
      if call !in w.calls || !w.calls[call].Waiting? || w.calls[call].id !in w.trace then w
      else
        var c := w.calls[call];
        if answer.Err? || answer.value.intentId != c.id then w.(calls := w.calls - {call})
        else
          w.(calls := w.calls[call := Answered(c.id, c.request, c.claimedAt, answer.value)],
             trace := Append(w.trace, c.id, Decided(call, answer.value)))
    case Complete(call, outcome) =>
      if call !in w.calls || !w.calls[call].Answered? || w.calls[call].id !in w.trace then w
      else
        var c := w.calls[call];
        w.(records := FinishRecords(cfg.hash, w.records, c.id, c.decision, outcome, w.now),
           calls := w.calls - {call},
           trace := if Executes(cfg.hash, w.records, c.id, c.decision, w.now)
                    then Append(w.trace, c.id, Ran(call, w.records[c.id].intent.parameters, outcome, w.now))
                    else w.trace)
    case Overwrite(id, parameters) =>
      w.(records := TamperRecords(w.records, id, parameters))
  }

  function Run(cfg: Config, w: World, steps: seq<Step>): World
    decreases |steps|
  {
    if steps == [] then w else Run(cfg, Next(cfg, w, steps[0]), steps[1..])
  }

  // ---------------------------------------------------------------------
  // The invariant.

  /** What the channel was shown is the intent as it was proposed, up to parameters of
      the captured hash, and the time that was left when the call claimed it. */
  predicate RequestBound(cfg: Config, req: ApprovalRequest, claimedAt: Instant, id: IntentId, i: Intent) {
    && req.intentId == id
    && req.proposer == i.proposer && req.dryRunDiff == i.dryRunDiff
    && req.remaining > 0 && claimedAt + req.remaining == i.expiresAt
    && req.capability == i.capability
    && req.parameterHash == i.parameterHash
    && cfg.hash(req.capability, req.parameters) == i.parameterHash
  }

  /** An intent's history is a prefix of proposed, consulted, decided, ran. */
  predicate TraceOk(cfg: Config, id: IntentId, i: Intent, t: seq<Event>) {
    && 1 <= |t| <= 4
    && t[0].Proposed? && t[0].proposer == i.proposer && t[0].diff == i.dryRunDiff
    && t[0].capability == i.capability && t[0].submittedAt == i.submittedAt && t[0].expiresAt == i.expiresAt
    && cfg.passes(t[0].capability, t[0].parameters)
    && i.id == id && i.parameterHash == cfg.hash(i.capability, t[0].parameters)
    && (|t| >= 2 ==> t[1].Consulted? && RequestBound(cfg, t[1].request, t[1].claimedAt, id, i))
    && (|t| >= 3 ==> t[2].Decided? && t[2].call == t[1].call && t[2].decision.intentId == id)
    && (|t| >= 4 ==>
          && t[3].Ran? && t[3].call == t[1].call && t[2].decision.approved
          && cfg.hash(i.capability, t[3].parameters) == i.parameterHash
          && t[3].at < i.expiresAt)
  }

  /** A record agrees with its history. */
  predicate RecordOk(r: LinkedRecord, id: IntentId, t: seq<Event>)
    requires |t| >= 3 ==> t[2].Decided?
    requires |t| >= 4 ==> t[3].Ran?
  {
    match r.status
    case Pending => |t| == 1 && r.decision.None? && r.execution.None?
    case InProgress => |t| <= 3 && r.decision.None? && r.execution.None?
    case Denied => |t| == 3 && !t[2].decision.approved && r.decision == Some(t[2].decision) && r.execution.None?
    case Executed => Executedly(r, id, t)
    case ExecutionFailed => Executedly(r, id, t)
    case _ =>
      && r.execution.None?
      && ((|t| == 1 && r.decision.None?)
          || (|t| == 3 && t[2].decision.approved && r.decision == Some(t[2].decision)))
  }

  predicate Executedly(r: LinkedRecord, id: IntentId, t: seq<Event>)
    requires |t| >= 3 ==> t[2].Decided?
    requires |t| >= 4 ==> t[3].Ran?
  {
    && |t| == 4
    && r.decision == Some(t[2].decision)
    && r.execution == Some(ExecutionResult(id, t[3].outcome, t[3].at))
    && r.status == StatusOf(t[3].outcome)
  }

  predicate IntentOk(cfg: Config, id: IntentId, r: LinkedRecord, t: seq<Event>) {
    TraceOk(cfg, id, r.intent, t) && RecordOk(r, id, t)
  }

  /** A call in progress owns its intent, and its phase agrees with the history. */
  predicate CallOk(cfg: Config, call: CallId, c: Call, r: LinkedRecord, t: seq<Event>) {
    && r.status == InProgress
    && RequestBound(cfg, c.request, c.claimedAt, c.id, r.intent)
    && match c
       case Claimant(_, _, _) => |t| == 1
       case Waiting(_, _, _) => |t| == 2 && t[1] == Consulted(call, c.request, c.claimedAt)
       case Answered(_, _, _, d) =>
         && |t| == 3 && t[1] == Consulted(call, c.request, c.claimedAt)
         && t[2] == Decided(call, d) && d.intentId == c.id
  }

  predicate IntentsOk(cfg: Config, w: World) {
    && w.records.Keys == w.trace.Keys
    && forall id :: id in w.records ==> id in w.trace && IntentOk(cfg, id, w.records[id], w.trace[id])
  }

  predicate CallsOk(cfg: Config, w: World) {
    forall k :: k in w.calls ==>
      && w.calls[k].id in w.records && w.calls[k].id in w.trace
      && CallOk(cfg, k, w.calls[k], w.records[w.calls[k].id], w.trace[w.calls[k].id])
  }

  predicate OneOwner(w: World) {
    forall a, b :: a in w.calls && b in w.calls && w.calls[a].id == w.calls[b].id ==> a == b
  }

  predicate Inv(cfg: Config, w: World) {
    IntentsOk(cfg, w) && CallsOk(cfg, w) && OneOwner(w)
  }

  // ---------------------------------------------------------------------
  // Every step keeps it. A step concerns one intent and at most one call.

  /** `v` differs from `w` only in intent `id` and its owner. */
  predicate Elsewhere(w: World, v: World, id: IntentId) {
    && (forall j :: j in v.records && j != id ==> j in w.records && v.records[j] == w.records[j])
    && (forall j :: j in v.trace && j != id ==> j in w.trace && v.trace[j] == w.trace[j])
    && (forall k :: k in v.calls && v.calls[k].id != id ==> k in w.calls && v.calls[k] == w.calls[k])
    && (forall j :: j in w.records && j != id ==> j in v.records)
    && (forall j :: j in w.trace && j != id ==> j in v.trace)
  }

  /** Intent `id` of `v` is in order, and only `owner` may be working on it. */
  predicate Here(cfg: Config, v: World, id: IntentId, owner: CallId) {
    && id in v.records && id in v.trace && IntentOk(cfg, id, v.records[id], v.trace[id])
    && (forall k :: k in v.calls && v.calls[k].id == id ==> k == owner)
    && (owner in v.calls && v.calls[owner].id == id ==>
          CallOk(cfg, owner, v.calls[owner], v.records[id], v.trace[id]))
  }

  lemma KeysAgree(w: World, v: World, id: IntentId)
    requires w.records.Keys == w.trace.Keys && Elsewhere(w, v, id) && id in v.records && id in v.trace
    ensures v.records.Keys == v.trace.Keys
  {
    forall j ensures j in v.records <==> j in v.trace {
      assert j in w.records.Keys <==> j in w.trace.Keys;
    }
  }

  lemma LocalIntents(cfg: Config, w: World, v: World, id: IntentId, owner: CallId)
    requires IntentsOk(cfg, w) && Elsewhere(w, v, id) && Here(cfg, v, id, owner)
    ensures IntentsOk(cfg, v)
  {
    KeysAgree(w, v, id);
    forall j | j in v.records ensures j in v.trace && IntentOk(cfg, j, v.records[j], v.trace[j]) {
      assert j in v.trace.Keys;
      assert j != id ==> j in w.records && IntentOk(cfg, j, w.records[j], w.trace[j]);
    }
  }

  lemma LocalCalls(cfg: Config, w: World, v: World, id: IntentId, owner: CallId)
    requires CallsOk(cfg, w) && Elsewhere(w, v, id) && Here(cfg, v, id, owner)
    ensures CallsOk(cfg, v)
  {
    forall k | k in v.calls
      ensures v.calls[k].id in v.records && v.calls[k].id in v.trace
      ensures CallOk(cfg, k, v.calls[k], v.records[v.calls[k].id], v.trace[v.calls[k].id])
    {
      var j := v.calls[k].id;
      if j != id {
        assert k in w.calls && CallOk(cfg, k, w.calls[k], w.records[j], w.trace[j]);
      }
    }
  }

  lemma LocalOwner(cfg: Config, w: World, v: World, id: IntentId, owner: CallId)
    requires OneOwner(w) && Elsewhere(w, v, id) && Here(cfg, v, id, owner)
    ensures OneOwner(v)
  {
  }

  lemma LocalStep(cfg: Config, w: World, v: World, id: IntentId, owner: CallId)
    requires Inv(cfg, w) && Elsewhere(w, v, id) && Here(cfg, v, id, owner)
    ensures Inv(cfg, v)
  {
    LocalIntents(cfg, w, v, id, owner);
    LocalCalls(cfg, w, v, id, owner);
    LocalOwner(cfg, w, v, id, owner);
  }

  /** The intent a step concerns; steps that do nothing concern none. */
  function Target(w: World, s: Step): Option<IntentId> {
    match s
    case Tick(_) => None
    case Propose(id, _, _, _, _, _) => Some(id)
    case Begin(_, id) => Some(id)
    case Ask(call) => if call in w.calls then Some(w.calls[call].id) else None
    case Answer(call, _) => if call in w.calls then Some(w.calls[call].id) else None
    case Complete(call, _) => if call in w.calls then Some(w.calls[call].id) else None
    case Overwrite(id, _) => Some(id)
  }

  lemma StepIsLocal(cfg: Config, w: World, s: Step)
    ensures match Target(w, s)
            case None => Next(cfg, w, s) == w.(now := Next(cfg, w, s).now)
            case Some(id) => Elsewhere(w, Next(cfg, w, s), id)
  {
  }

  lemma HereAfterPropose(cfg: Config, w: World, s: Step)
    requires Inv(cfg, w) && s.Propose? && s.id !in w.records && cfg.passes(s.capability, s.parameters)
    ensures Here(cfg, Next(cfg, w, s), s.id, 0)
  {
    var v := Next(cfg, w, s);
    assert v.trace[s.id]
        == [Proposed(s.proposer, s.capability, s.parameters, s.diff, w.now, w.now + s.expiry)];
  }

  /** Only intents in progress are owned. */
  lemma Unowned(cfg: Config, w: World, id: IntentId)
    requires Inv(cfg, w) && id in w.records && w.records[id].status != InProgress
    ensures forall k :: k in w.calls ==> w.calls[k].id != id
  {
  }

  lemma HereAfterBegin(cfg: Config, w: World, s: Step)
    requires Inv(cfg, w) && s.Begin? && s.call !in w.calls && s.id in w.records && w.records[s.id].status == Pending
    ensures Here(cfg, Next(cfg, w, s), s.id, s.call)
  {
    Unowned(cfg, w, s.id);
    assert IntentOk(cfg, s.id, w.records[s.id], w.trace[s.id]);
  }

  lemma HereAfterAsk(cfg: Config, w: World, s: Step)
    requires Inv(cfg, w) && s.Ask? && s.call in w.calls && w.calls[s.call].Claimant?
    ensures Here(cfg, Next(cfg, w, s), w.calls[s.call].id, s.call)
  {
    var c := w.calls[s.call];
    var t := w.trace[c.id];
    assert CallOk(cfg, s.call, c, w.records[c.id], t) && IntentOk(cfg, c.id, w.records[c.id], t);
    var v := Next(cfg, w, s);
    assert v.trace[c.id] == [t[0], Consulted(s.call, c.request, c.claimedAt)];
    assert v.records == w.records && v.calls[s.call] == Waiting(c.id, c.request, c.claimedAt);
  }

  lemma HereAfterAnswer(cfg: Config, w: World, s: Step)
    requires Inv(cfg, w) && s.Answer? && s.call in w.calls && w.calls[s.call].Waiting?
    ensures Here(cfg, Next(cfg, w, s), w.calls[s.call].id, s.call)
  {
    var c := w.calls[s.call];
    var t := w.trace[c.id];
    assert CallOk(cfg, s.call, c, w.records[c.id], t) && IntentOk(cfg, c.id, w.records[c.id], t);
    var v := Next(cfg, w, s);
    assert v.records == w.records;
    if s.answer.Ok? && s.answer.value.intentId == c.id {
      assert v.trace[c.id] == [t[0], t[1], Decided(s.call, s.answer.value)];
      assert v.calls[s.call] == Answered(c.id, c.request, c.claimedAt, s.answer.value);
    }
  }

  lemma HereAfterComplete(cfg: Config, w: World, s: Step)
    requires Inv(cfg, w) && s.Complete? && s.call in w.calls && w.calls[s.call].Answered?
    ensures Here(cfg, Next(cfg, w, s), w.calls[s.call].id, s.call)
  {
    var c := w.calls[s.call];
    var r, t := w.records[c.id], w.trace[c.id];
    assert CallOk(cfg, s.call, c, r, t) && IntentOk(cfg, c.id, r, t);
    var v := Next(cfg, w, s);
    if Executes(cfg.hash, w.records, c.id, c.decision, w.now) {
      assert v.trace[c.id] == [t[0], t[1], t[2], Ran(s.call, r.intent.parameters, s.outcome, w.now)];
    }
    assert s.call !in v.calls;
  }

  lemma HereAfterOverwrite(cfg: Config, w: World, s: Step) returns (owner: CallId)
    requires Inv(cfg, w) && s.Overwrite? && s.id in w.records
    ensures Here(cfg, Next(cfg, w, s), s.id, owner)
  {
    assert IntentOk(cfg, s.id, w.records[s.id], w.trace[s.id]);
    owner := 0;
    if k :| k in w.calls && w.calls[k].id == s.id {
      owner := k;
      assert CallOk(cfg, k, w.calls[k], w.records[s.id], w.trace[s.id]);
    }
  }

  lemma KeptByAsk(cfg: Config, w: World, s: Step)
    requires Inv(cfg, w) && s.Ask?
    ensures Inv(cfg, Next(cfg, w, s))
  {
    if s.call in w.calls && w.calls[s.call].Claimant? {
      StepIsLocal(cfg, w, s);
      HereAfterAsk(cfg, w, s);
      LocalStep(cfg, w, Next(cfg, w, s), w.calls[s.call].id, s.call);
    }
  }

  lemma KeptByAnswer(cfg: Config, w: World, s: Step)
    requires Inv(cfg, w) && s.Answer?
    ensures Inv(cfg, Next(cfg, w, s))
  {
    if s.call in w.calls && w.calls[s.call].Waiting? {
      StepIsLocal(cfg, w, s);
      HereAfterAnswer(cfg, w, s);
      LocalStep(cfg, w, Next(cfg, w, s), w.calls[s.call].id, s.call);
    }
  }

  lemma KeptByComplete(cfg: Config, w: World, s: Step)
    requires Inv(cfg, w) && s.Complete?
    ensures Inv(cfg, Next(cfg, w, s))
  {
    if s.call in w.calls && w.calls[s.call].Answered? {
      StepIsLocal(cfg, w, s);
      HereAfterComplete(cfg, w, s);
      LocalStep(cfg, w, Next(cfg, w, s), w.calls[s.call].id, s.call);
    }
  }

  lemma KeptByOther(cfg: Config, w: World, s: Step)
    requires Inv(cfg, w) && (s.Propose? || s.Begin? || s.Overwrite?)
    ensures Inv(cfg, Next(cfg, w, s))
  {
    StepIsLocal(cfg, w, s);
    if s.Propose? && s.id !in w.records && cfg.passes(s.capability, s.parameters) {
      HereAfterPropose(cfg, w, s);
      LocalStep(cfg, w, Next(cfg, w, s), s.id, 0);
    } else if s.Begin? && s.call !in w.calls && s.id in w.records && w.records[s.id].status == Pending {
      HereAfterBegin(cfg, w, s);
      LocalStep(cfg, w, Next(cfg, w, s), s.id, s.call);
    } else if s.Overwrite? && s.id in w.records {
      var owner := HereAfterOverwrite(cfg, w, s);
      LocalStep(cfg, w, Next(cfg, w, s), s.id, owner);
    }
  }

  lemma Kept(cfg: Config, w: World, s: Step)
    requires Inv(cfg, w)
    ensures Inv(cfg, Next(cfg, w, s))
  {
    match s
    case Tick(_) =>
    case Ask(_) => KeptByAsk(cfg, w, s);
    case Answer(_, _) => KeptByAnswer(cfg, w, s);
    case Complete(_, _) => KeptByComplete(cfg, w, s);
    case _ => KeptByOther(cfg, w, s);
  }

  lemma {:induction false} KeptByRun(cfg: Config, w: World, steps: seq<Step>)
    requires Inv(cfg, w)
    ensures Inv(cfg, Run(cfg, w, steps))
    decreases |steps|
  {
    if steps != [] {
      Kept(cfg, w, steps[0]);
      KeptByRun(cfg, Next(cfg, w, steps[0]), steps[1..]);
    }
  }

  // ---------------------------------------------------------------------
  // What this means, over every run from the empty flow.

  /** At most one call is between claim and finish on any intent, and the
      intent is then in progress. */
  lemma SingleOwner(cfg: Config, steps: seq<Step>, a: CallId, b: CallId)
    requires var w := Run(cfg, INIT, steps); a in w.calls && b in w.calls && w.calls[a].id == w.calls[b].id
    ensures a == b
    ensures var w := Run(cfg, INIT, steps);
            w.calls[a].id in w.records && w.records[w.calls[a].id].status == InProgress
  {
    KeptByRun(cfg, INIT, steps);
    var w := Run(cfg, INIT, steps);
    assert CallOk(cfg, a, w.calls[a], w.records[w.calls[a].id], w.trace[w.calls[a].id]);
  }

  /** The channel is consulted at most once and the capability run at most once per intent. */
  lemma AtMostOnce(cfg: Config, steps: seq<Step>, id: IntentId, m: nat, n: nat)
    requires var w := Run(cfg, INIT, steps); id in w.trace && m < |w.trace[id]| && n < |w.trace[id]|
    ensures var t := Run(cfg, INIT, steps).trace[id];
            && (t[m].Consulted? && t[n].Consulted? ==> m == n)
            && (t[m].Ran? && t[n].Ran? ==> m == n)
  {
    KeptByRun(cfg, INIT, steps);
    var w := Run(cfg, INIT, steps);
    assert IntentOk(cfg, id, w.records[id], w.trace[id]);
  }

  /** Whenever the capability runs, the same call was earlier told that this
      very intent is approved, the intent has not expired, and what was proposed,
      what was shown and what is run all have the hash captured at proposal. */
  lemma RunOnlyAsApproved(cfg: Config, steps: seq<Step>, id: IntentId, n: nat)
    requires var w := Run(cfg, INIT, steps); id in w.trace && n < |w.trace[id]| && w.trace[id][n].Ran?
    ensures var t := Run(cfg, INIT, steps).trace[id];
            && n == 3 && t[0].Proposed? && t[1].Consulted? && t[2].Decided?
            && t[1].call == t[2].call == t[3].call
            && t[2].decision.intentId == id && t[2].decision.approved
            && t[3].at < t[0].expiresAt
            && t[1].request.capability == t[0].capability
            && cfg.hash(t[0].capability, t[1].request.parameters) == cfg.hash(t[0].capability, t[0].parameters)
            && cfg.hash(t[0].capability, t[3].parameters) == cfg.hash(t[0].capability, t[0].parameters)
  {
    KeptByRun(cfg, INIT, steps);
    var w := Run(cfg, INIT, steps);
    assert IntentOk(cfg, id, w.records[id], w.trace[id]);
  }

  /** Nothing more will happen to this intent: it is terminal, or it was claimed
      by a call that is gone. */
  predicate Settled(w: World, id: IntentId) {
    && id in w.records && id in w.trace
    && (Terminal(w.records[id].status)
        || (w.records[id].status == InProgress && forall k :: k in w.calls ==> w.calls[k].id != id))
  }

  predicate SameOutcome(w: World, v: World, id: IntentId)
    requires id in w.records && id in w.trace
  {
    && id in v.records && id in v.trace
    && v.trace[id] == w.trace[id]
    && v.records[id].status == w.records[id].status
    && v.records[id].decision == w.records[id].decision
    && v.records[id].execution == w.records[id].execution
  }

  lemma SettledUnowned(cfg: Config, w: World, id: IntentId)
    requires Inv(cfg, w) && Settled(w, id)
    ensures forall k :: k in w.calls ==> w.calls[k].id != id
  {
    if Terminal(w.records[id].status) {
      Unowned(cfg, w, id);
    }
  }

  /** A step on an intent nobody owns, if it is not pending, changes at most its parameters. */
  lemma UnownedStep(cfg: Config, w: World, s: Step, id: IntentId)
    requires id in w.records && id in w.trace && w.records[id].status != Pending
    requires forall k :: k in w.calls ==> w.calls[k].id != id
    ensures SameOutcome(w, Next(cfg, w, s), id)
    ensures forall k :: k in Next(cfg, w, s).calls ==> Next(cfg, w, s).calls[k].id != id
  {
  }

  lemma SettledStep(cfg: Config, w: World, s: Step, id: IntentId)
    requires Inv(cfg, w) && Settled(w, id)
    ensures Settled(Next(cfg, w, s), id) && SameOutcome(w, Next(cfg, w, s), id)
  {
    SettledUnowned(cfg, w, id);
    UnownedStep(cfg, w, s, id);
  }

  /** A terminal status, and the loss of the call that claimed an intent, are
      for ever: no later step consults the channel for it, runs it or changes it. */
  lemma {:induction false} SettledForever(cfg: Config, w: World, steps: seq<Step>, id: IntentId)
    requires Inv(cfg, w) && Settled(w, id)
    ensures Settled(Run(cfg, w, steps), id) && SameOutcome(w, Run(cfg, w, steps), id)
    decreases |steps|
  {
    if steps != [] {
      var v := Next(cfg, w, steps[0]);
      Kept(cfg, w, steps[0]);
      SettledStep(cfg, w, steps[0], id);
      SettledForever(cfg, v, steps[1..], id);
    }
  }

  predicate NeverRan(t: seq<Event>) {
    forall n :: 0 <= n < |t| ==> !t[n].Ran?
  }

  /** A channel error, or a decision for another intent, loses the call: the
      intent stays in progress and is never run. */
  lemma ChannelFailureIsFinal(cfg: Config, steps: seq<Step>, w: World, call: CallId, u: World,
                              answer: Result<ApprovalDecision, string>, later: seq<Step>)
    requires w == Run(cfg, INIT, steps)
    requires call in w.calls && w.calls[call].Waiting? && (answer.Err? || answer.value.intentId != w.calls[call].id)
    requires u == Next(cfg, w, Answer(call, answer))
    ensures var v := Run(cfg, u, later);
            var id := w.calls[call].id;
            && id in v.records && v.records[id].status == InProgress
            && id in v.trace && NeverRan(v.trace[id])
  {
    KeptByRun(cfg, INIT, steps);
    FailureSettles(cfg, w, call, answer);
    Kept(cfg, w, Answer(call, answer));
    SettledForever(cfg, u, later, w.calls[call].id);
  }

  lemma FailureSettles(cfg: Config, w: World, call: CallId, answer: Result<ApprovalDecision, string>)
    requires Inv(cfg, w)
    requires call in w.calls && w.calls[call].Waiting? && (answer.Err? || answer.value.intentId != w.calls[call].id)
    ensures var u := Next(cfg, w, Answer(call, answer));
            var id := w.calls[call].id;
            && Settled(u, id) && u.records[id].status == InProgress
            && NeverRan(u.trace[id])
  {
    var id := w.calls[call].id;
    assert CallOk(cfg, call, w.calls[call], w.records[id], w.trace[id]);
    assert IntentOk(cfg, id, w.records[id], w.trace[id]);
    var u := Next(cfg, w, Answer(call, answer));
    assert |w.trace[id]| == 2;
    assert u.calls == w.calls - {call} && u.records == w.records && u.trace == w.trace;
  }

  /** Intent `id`, if registered at all, was proposed with something else. */
  predicate ProposedOtherwise(w: World, id: IntentId, capability: string, parameters: seq<Constraint>) {
    id in w.trace ==>
      && w.trace[id] != [] && w.trace[id][0].Proposed?
      && (w.trace[id][0].capability != capability || w.trace[id][0].parameters != parameters)
  }

  /** A proposal that screening rejects changes nothing, and no intent in any
      run was proposed with parameters that screening rejects. */
  lemma RejectedIsNeverRegistered(cfg: Config, steps: seq<Step>, s: Step, id: IntentId)
    requires s.Propose? && !cfg.passes(s.capability, s.parameters)
    ensures var w := Run(cfg, INIT, steps);
            Next(cfg, w, s) == w && ProposedOtherwise(w, id, s.capability, s.parameters)
  {
    KeptByRun(cfg, INIT, steps);
    var w := Run(cfg, INIT, steps);
    if id in w.trace {
      assert id in w.records.Keys;
      assert IntentOk(cfg, id, w.records[id], w.trace[id]);
    }
  }

  // ---------------------------------------------------------------------
  // What the channel is shown.

  /** Nobody overwrites stored parameters in this run. */
  predicate Untampered(steps: seq<Step>) {
    forall s :: s in steps ==> !s.Overwrite?
  }

  /** The stored parameters, and those of any consultation, are the proposed ones. */
  predicate AsProposed(i: Intent, t: seq<Event>) {
    && t != [] && t[0].Proposed? && i.parameters == t[0].parameters
    && forall n :: 0 <= n < |t| && t[n].Consulted? ==> t[n].request.parameters == t[0].parameters
  }

  predicate AllAsProposed(w: World) {
    && (forall id :: id in w.records ==> id in w.trace && AsProposed(w.records[id].intent, w.trace[id]))
    && (forall k :: k in w.calls ==>
          w.calls[k].id in w.records && w.calls[k].request.parameters == w.records[w.calls[k].id].intent.parameters)
  }

  lemma AsProposedAppend(i: Intent, t: seq<Event>, e: Event)
    requires AsProposed(i, t) && (e.Consulted? ==> e.request.parameters == i.parameters)
    ensures AsProposed(i, t + [e])
  {
  }

  /** Only a consultation of its own call adds a `Consulted` event to a history. */
  lemma HistoryGrows(cfg: Config, w: World, s: Step, id: IntentId) returns (e: Option<Event>)
    requires id in w.records && id in w.trace && !s.Overwrite?
    ensures var v := Next(cfg, w, s);
            && id in v.records && v.records[id].intent == w.records[id].intent
            && id in v.trace && v.trace[id] == w.trace[id] + (if e.Some? then [e.value] else [])
            && (e.Some? && e.value.Consulted? ==>
                  s.Ask? && s.call in w.calls && w.calls[s.call].id == id && e.value.request == w.calls[s.call].request)
  {
    var v := Next(cfg, w, s);
    if v.trace[id] == w.trace[id] {
      e := None;
    } else {
      e := Some(v.trace[id][|w.trace[id]|]);
    }
  }

  /** A call keeps its request; a new one takes it from the record. */
  lemma CallsKeepRequests(cfg: Config, w: World, s: Step, k: CallId)
    requires k in Next(cfg, w, s).calls
    ensures var c := Next(cfg, w, s).calls[k];
            || (k in w.calls && w.calls[k].id == c.id && w.calls[k].request == c.request)
            || (c.id in w.records && c.request.parameters == w.records[c.id].intent.parameters)
  {
  }

  lemma IntentsKeepParameters(cfg: Config, w: World, s: Step, id: IntentId)
    requires id in w.records && !s.Overwrite? && (id in w.trace)
    ensures id in Next(cfg, w, s).records && Next(cfg, w, s).records[id].intent == w.records[id].intent
  {
    var e := HistoryGrows(cfg, w, s, id);
  }

  lemma NewIntentsAreProposed(cfg: Config, w: World, s: Step, id: IntentId)
    requires w.records.Keys == w.trace.Keys && id !in w.records && id in Next(cfg, w, s).records
    ensures var v := Next(cfg, w, s);
            id in v.trace && AsProposed(v.records[id].intent, v.trace[id])
  {
  }

  lemma AsProposedStep(cfg: Config, w: World, s: Step)
    requires w.records.Keys == w.trace.Keys && AllAsProposed(w) && !s.Overwrite?
    ensures AllAsProposed(Next(cfg, w, s))
  {
    var v := Next(cfg, w, s);
    forall id | id in v.records ensures id in v.trace && AsProposed(v.records[id].intent, v.trace[id]) {
      if id in w.records {
        var e := HistoryGrows(cfg, w, s, id);
        if e.Some? {
          AsProposedAppend(w.records[id].intent, w.trace[id], e.value);
        } else {
          assert v.trace[id] == w.trace[id];
        }
      } else {
        NewIntentsAreProposed(cfg, w, s, id);
      }
    }
    forall k | k in v.calls
      ensures v.calls[k].id in v.records && v.calls[k].request.parameters == v.records[v.calls[k].id].intent.parameters
    {
      CallsKeepRequests(cfg, w, s, k);
      IntentsKeepParameters(cfg, w, s, v.calls[k].id);
    }
  }

  lemma {:induction false} AsProposedRun(cfg: Config, w: World, steps: seq<Step>)
    requires Inv(cfg, w) && AllAsProposed(w) && Untampered(steps)
    ensures AllAsProposed(Run(cfg, w, steps))
    decreases |steps|
  {
    if steps != [] {
      assert steps[0] in steps;
      AsProposedStep(cfg, w, steps[0]);
      Kept(cfg, w, steps[0]);
      AsProposedRun(cfg, Next(cfg, w, steps[0]), steps[1..]);
    }
  }

  /** In every run, overwriting included, what the channel is shown is who proposed what,
      with which effects announced, and how long there was to decide when the call claimed
      the intent: it had not expired then. */
  lemma ConsultedAsProposed(cfg: Config, steps: seq<Step>, w: World, id: IntentId, n: nat)
    requires w == Run(cfg, INIT, steps)
    requires id in w.trace && n < |w.trace[id]| && w.trace[id][n].Consulted?
    ensures var t := w.trace[id];
            && t[0].Proposed? && t[n].request.intentId == id
            && t[n].request.proposer == t[0].proposer
            && t[n].request.capability == t[0].capability
            && t[n].request.dryRunDiff == t[0].diff
            && t[n].request.parameterHash == cfg.hash(t[0].capability, t[0].parameters)
            && t[n].claimedAt + t[n].request.remaining == t[0].expiresAt
            && t[n].claimedAt < t[0].expiresAt
  {
    KeptByRun(cfg, INIT, steps);
    assert id in w.records.Keys;
    assert IntentOk(cfg, id, w.records[id], w.trace[id]);
  }

  /** In every run, what the channel is shown has the hash of parameters that
      passed screening; unless parameters were overwritten, it is those parameters. */
  lemma ConsultedHasPassed(cfg: Config, steps: seq<Step>, w: World, id: IntentId, n: nat)
    requires w == Run(cfg, INIT, steps)
    requires id in w.trace && n < |w.trace[id]| && w.trace[id][n].Consulted?
    ensures var t := w.trace[id];
            && t[0].Proposed? && cfg.passes(t[0].capability, t[0].parameters)
            && t[n].request.capability == t[0].capability
            && cfg.hash(t[0].capability, t[n].request.parameters) == cfg.hash(t[0].capability, t[0].parameters)
    ensures Untampered(steps) ==>
              && w.trace[id][n].request.parameters == w.trace[id][0].parameters
              && cfg.passes(w.trace[id][n].request.capability, w.trace[id][n].request.parameters)
  {
    KeptByRun(cfg, INIT, steps);
    assert id in w.records.Keys;
    assert IntentOk(cfg, id, w.records[id], w.trace[id]);
    if Untampered(steps) {
      AsProposedRun(cfg, INIT, steps);
      assert AsProposed(w.records[id].intent, w.trace[id]);
    }
  }

  /** `cfg` screens proposals with this policy. */
  ghost predicate ScreenedBy(cfg: Config, screen: Screen, lower: string -> string) {
    forall capability, parameters ::
      cfg.passes(capability, parameters) <==> Rejection(screen, lower, capability, parameters).None?
  }

  /** So no approver is ever shown a parameter that names a protected device. */
  lemma ConsultedNamesNothingProtected(cfg: Config, screen: Screen, lower: string -> string, steps: seq<Step>, w: World,
                                       id: IntentId, n: nat, c: Constraint, p: ProtectedResource)
    requires ScreenedBy(cfg, screen, lower) && w == Run(cfg, INIT, steps) && Untampered(steps)
    requires id in w.trace && n < |w.trace[id]| && w.trace[id][n].Consulted?
    requires c in w.trace[id][n].request.parameters
    ensures screen.protected.Some? && (p in screen.protected.value ==> !NamedIn(c, p))
  {
    ConsultedHasPassed(cfg, steps, w, id, n);
    var r := w.trace[id][n].request;
    PassesIff(screen, lower, r.capability, r.parameters);
  }

  /** In particular the channel is never shown a protected MAC, in either separator
      and any case and with whitespace anywhere in it, unless an earlier MAC-shaped
      window overlaps it. */
  lemma ProtectedMacNeverConsulted(cfg: Config, screen: Screen, lower: string -> string, steps: seq<Step>, w: World,
                                   id: IntentId, n: nat, c: Constraint, text: string, t: string, k: nat,
                                   p: ProtectedResource)
    requires ScreenedBy(cfg, screen, lower) && w == Run(cfg, INIT, steps) && Untampered(steps)
    requires id in w.trace && n < |w.trace[id]| && w.trace[id][n].Consulted?
    requires c in w.trace[id][n].request.parameters && text in Scannable(c.value)
    requires screen.protected.Some? && p in screen.protected.value
    requires SpelledAt(text, t, k, p.mac)
    ensures !Isolated(t, k)
  {
    ConsultedNamesNothingProtected(cfg, screen, lower, steps, w, id, n, c, p);
    if Isolated(t, k) {
      IsolatedMacFound(text, t, k);
    }
  }

  /** No step of `steps` is the second section of `call`. */
  predicate Unfinished(steps: seq<Step>, call: CallId) {
    forall i :: 0 <= i < |steps| && steps[i].Complete? ==> steps[i].call != call
  }

  lemma AnsweredStep(cfg: Config, w: World, s: Step, call: CallId)
    requires call in w.calls && w.calls[call].Answered? && (s.Complete? ==> s.call != call)
    ensures var v := Next(cfg, w, s);
            call in v.calls && v.calls[call] == w.calls[call]
  {
  }

  /** A call that has its answer keeps it until it finishes. */
  lemma {:induction false} AnsweredStays(cfg: Config, w: World, steps: seq<Step>, call: CallId)
    requires call in w.calls && w.calls[call].Answered? && Unfinished(steps, call)
    ensures var v := Run(cfg, w, steps);
            call in v.calls && v.calls[call] == w.calls[call]
    decreases |steps|
  {
    if steps != [] {
      AnsweredStep(cfg, w, steps[0], call);
      AnsweredStays(cfg, Next(cfg, w, steps[0]), steps[1..], call);
    }
  }

  lemma FinishingIsTerminal(cfg: Config, w: World, call: CallId, outcome: Outcome)
    requires Inv(cfg, w) && call in w.calls && w.calls[call].Answered?
    ensures var v := Next(cfg, w, Complete(call, outcome));
            w.calls[call].id in v.records && Terminal(v.records[w.calls[call].id].status)
  {
    var c := w.calls[call];
    assert CallOk(cfg, call, c, w.records[c.id], w.trace[c.id]);
    FinishIsRecorded(cfg.hash, w.records, c.id, c.decision, outcome, w.now);
  }

  /** For a call waiting on the channel, and whatever happens between its answer and its
      finish: its intent ends with a terminal status exactly when the channel answers, and
      answers for that intent. */
  lemma AnswerIsRecordedIff(cfg: Config, steps: seq<Step>, w: World, call: CallId,
                            answer: Result<ApprovalDecision, string>, between: seq<Step>, outcome: Outcome)
    requires w == Run(cfg, INIT, steps) && call in w.calls && w.calls[call].Waiting? && Unfinished(between, call)
    ensures var id := w.calls[call].id;
            var u := Run(cfg, Next(cfg, w, Answer(call, answer)), between);
            var v := Next(cfg, u, Complete(call, outcome));
            && id in v.records
            && (Terminal(v.records[id].status) <==> answer.Ok? && answer.value.intentId == id)
  {
    KeptByRun(cfg, INIT, steps);
    AnswerRecorded(cfg, w, call, answer, between, outcome);
  }

  lemma AnswerRecorded(cfg: Config, w: World, call: CallId, answer: Result<ApprovalDecision, string>,
                       between: seq<Step>, outcome: Outcome)
    requires Inv(cfg, w) && call in w.calls && w.calls[call].Waiting? && Unfinished(between, call)
    ensures var id := w.calls[call].id;
            var u := Run(cfg, Next(cfg, w, Answer(call, answer)), between);
            var v := Next(cfg, u, Complete(call, outcome));
            && id in v.records
            && (Terminal(v.records[id].status) <==> answer.Ok? && answer.value.intentId == id)
  {
    var id := w.calls[call].id;
    var after := Next(cfg, w, Answer(call, answer));
    var u := Run(cfg, after, between);
    Kept(cfg, w, Answer(call, answer));
    KeptByRun(cfg, after, between);
    if answer.Ok? && answer.value.intentId == id {
      Answers(cfg, w, call, answer.value);
      AnsweredStays(cfg, after, between, call);
      FinishingIsTerminal(cfg, u, call, outcome);
    } else {
      FailureSettles(cfg, w, call, answer);
      SettledForever(cfg, after, between, id);
      SettledStep(cfg, u, Complete(call, outcome), id);
    }
  }

  lemma Answers(cfg: Config, w: World, call: CallId, decision: ApprovalDecision)
    requires Inv(cfg, w) && call in w.calls && w.calls[call].Waiting? && decision.intentId == w.calls[call].id
    ensures var v := Next(cfg, w, Answer(call, Ok(decision)));
            && call in v.calls && v.calls[call].Answered?
            && v.calls[call].id == decision.intentId && v.calls[call].decision == decision
  {
  }

  // ---------------------------------------------------------------------
  // All this happens.

  /** A proposal, a claim and a question to the channel. */
  function Asking(p: Step, call: CallId): seq<Step>
    requires p.Propose?
  {
    [p, Begin(call, p.id), Ask(call)]
  }

  lemma RunThree(cfg: Config, w: World, a: Step, b: Step, c: Step)
    ensures Run(cfg, w, [a, b, c]) == Next(cfg, Next(cfg, Next(cfg, w, a), b), c)
  {
    var w1 := Next(cfg, w, a);
    var w2 := Next(cfg, w1, b);
    assert [a, b, c][1..] == [b, c] && [b, c][1..] == [c] && [c][1..] == [];
    assert Run(cfg, w2, [c]) == Run(cfg, Next(cfg, w2, c), []);
    assert Run(cfg, w1, [b, c]) == Run(cfg, w2, [c]);
  }

  /** Every proposal that passes screening and does not expire at once can be put to the
      channel. */
  lemma AskingHappens(cfg: Config, p: Step, call: CallId)
    requires p.Propose? && cfg.passes(p.capability, p.parameters) && p.expiry > 0
    ensures var w := Run(cfg, INIT, Asking(p, call));
            && call in w.calls && w.calls[call].Waiting? && w.calls[call].id == p.id && w.now == 0
            && p.id in w.trace && |w.trace[p.id]| == 2
            && p.id in w.records && w.records[p.id].status == InProgress
            && w.records[p.id].intent
                 == NewIntent(cfg.hash, p.id, p.proposer, p.capability, p.parameters, p.diff, p.expiry, 0)
  {
    RunThree(cfg, INIT, p, Begin(call, p.id), Ask(call));
  }

  /** And if it is approved, it is run on the parameters that were proposed. */
  lemma ApprovalHappens(cfg: Config, p: Step, call: CallId, decision: ApprovalDecision, outcome: Outcome)
    requires p.Propose? && cfg.passes(p.capability, p.parameters) && p.expiry > 0
    requires decision.intentId == p.id && decision.approved
    ensures var w := Run(cfg, INIT, Asking(p, call));
            var v := Next(cfg, Next(cfg, w, Answer(call, Ok(decision))), Complete(call, outcome));
            && p.id in v.trace && |v.trace[p.id]| == 4
            && v.trace[p.id][3] == Ran(call, p.parameters, outcome, 0)
            && p.id in v.records && v.records[p.id].status == StatusOf(outcome)
  {
    AskingHappens(cfg, p, call);
    Approves(cfg, Run(cfg, INIT, Asking(p, call)), call, decision, outcome);
  }

  lemma Approves(cfg: Config, w: World, call: CallId, decision: ApprovalDecision, outcome: Outcome)
    requires call in w.calls && w.calls[call].Waiting? && w.calls[call].id == decision.intentId && decision.approved
    requires decision.intentId in w.records && decision.intentId in w.trace && |w.trace[decision.intentId]| == 2
    requires var i := w.records[decision.intentId].intent;
             w.now < i.expiresAt && cfg.hash(i.capability, i.parameters) == i.parameterHash
    ensures var id := decision.intentId;
            var v := Next(cfg, Next(cfg, w, Answer(call, Ok(decision))), Complete(call, outcome));
            && id in v.trace && |v.trace[id]| == 4
            && v.trace[id][3] == Ran(call, w.records[id].intent.parameters, outcome, w.now)
            && id in v.records && v.records[id].status == StatusOf(outcome)
  {
  }
}
