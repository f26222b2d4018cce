/** Key revocation over every run: why each revoked key is revoked, that it stays
    so, and how often the session invalidators fire. */
module RevocationRuns {
  import opened Prelude
  import opened Revocation

  /** A vote that was accepted, with the trust its witness enjoyed then. */
  datatype Vote = Vote(ballot: Witness, trust: Trust)

  datatype World = World(manager: Manager, votes: seq<Vote>)

  datatype Step =
    | AddTrust(trust: Trust)
    | RemoveTrust(peer: Key)
    | AddIssuer(key: Key, issuer: Key)
    | Present(certificate: Certificate, source: Source, now: Milliseconds)
    | CastVote(ballot: Witness, voter: Key, now: Milliseconds)

  const INIT: World := World(EMPTY, [])

  /** Whether a vote is counted. */
  predicate Counted(verify: Verifier, m: Manager, w: Witness, voter: Key) {
    w.revokedKeyId !in m.revoked && VoteError(verify, m, w, voter).None?
  }

  function Next(verify: Verifier, cfg: Config, w: World, s: Step): World {
    var m := w.manager;
    match s
    case AddTrust(t) => w.(manager := m.(trust := m.trust[t.peerId := t]))
    case RemoveTrust(p) => w.(manager := m.(trust := m.trust - {p}))
    case AddIssuer(k, i) => w.(manager := RegisterIssuer(m, k, i))
    case Present(c, source, now) => w.(manager := ProcessCertificate(verify, cfg, m, c, source, now).manager)
    case CastVote(v, voter, now) =>
      World(ProcessVote(verify, cfg, m, v, voter, now).manager,
            if Counted(verify, m, v, voter) then w.votes + [Vote(v, m.trust[voter])] else w.votes)
  }

  function Run(verify: Verifier, cfg: Config, w: World, steps: seq<Step>): World
    decreases |steps|
  {
    if steps == [] then w else Run(verify, cfg, Next(verify, cfg, w, steps[0]), steps[1..])
  }

  // ---------------------------------------------------------------------
  // Justification.

  /** Signed by the key itself, where that is allowed, or by a registered issuer of it. */
  predicate SignedFor(verify: Verifier, cfg: Config, m: Manager, key: Key, c: Certificate) {
    && c.revokedKeyId == key
    && CertificateVerifies(verify, c, c.revokerId)
    && ((cfg.allowSelfRevocation && c.revokerId == key) || c.revokerId in IssuersOf(m, key))
  }

  /** The witness was trusted to vote when its vote was counted. */
  predicate CastWhileTrusted(votes: seq<Vote>, w: Witness) {
    exists j :: 0 <= j < |votes| && votes[j].ballot == w && votes[j].trust.peerId == w.witnessId
      && votes[j].trust.canWitness
  }

  /** Distinct witnesses, each with a valid signature on a vote against `key`. */
  predicate VotesOk(verify: Verifier, votes: seq<Vote>, key: Key, ws: seq<Witness>) {
    && (forall i :: 0 <= i < |ws| ==>
          ws[i].revokedKeyId == key && WitnessVerifies(verify, ws[i], ws[i].witnessId)
            && CastWhileTrusted(votes, ws[i]))
    && (forall i, j :: 0 <= i < j < |ws| ==> ws[i].witnessId != ws[j].witnessId)
  }

  predicate Justified(verify: Verifier, cfg: Config, w: World, key: Key)
    requires key in w.manager.revoked
  {
    var e := w.manager.revoked[key];
    if e.witnesses == [] then SignedFor(verify, cfg, w.manager, key, e.certificate)
    else |e.witnesses| == Quorum(cfg) && VotesOk(verify, w.votes, key, e.witnesses)
  }

  predicate RevokedOk(verify: Verifier, cfg: Config, w: World) {
    forall k :: k in w.manager.revoked ==> Justified(verify, cfg, w, k)
  }

  predicate PendingOk(verify: Verifier, cfg: Config, w: World) {
    forall k :: k in w.manager.pending ==>
      0 < |w.manager.pending[k]| < cfg.witnessesRequired && VotesOk(verify, w.votes, k, w.manager.pending[k])
  }

  predicate TrustOk(m: Manager) {
    forall p :: p in m.trust ==> m.trust[p].peerId == p
  }

  /** The invalidators have been called exactly once for every revoked key and for no other. */
  ghost predicate InvalidatedOnce(m: Manager) {
    && (forall k :: k in m.invalidated <==> k in m.revoked)
    && (forall i, j :: 0 <= i < j < |m.invalidated| ==> m.invalidated[i] != m.invalidated[j])
  }

  ghost predicate Inv(verify: Verifier, cfg: Config, w: World) {
    RevokedOk(verify, cfg, w) && PendingOk(verify, cfg, w) && TrustOk(w.manager) && InvalidatedOnce(w.manager)
  }

  // ---------------------------------------------------------------------
  // Preservation.

  lemma VotesStay(verify: Verifier, votes: seq<Vote>, v: Vote, key: Key, ws: seq<Witness>)
    requires VotesOk(verify, votes, key, ws)
    ensures VotesOk(verify, votes + [v], key, ws)
  {
    forall i | 0 <= i < |ws| ensures CastWhileTrusted(votes + [v], ws[i]) {
      var j :| 0 <= j < |votes| && votes[j].ballot == ws[i] && votes[j].trust.peerId == ws[i].witnessId
        && votes[j].trust.canWitness;
      assert (votes + [v])[j] == votes[j];
    }
  }

  /** Whatever keeps the revoked keys, adds issuers only, and adds votes only, keeps their justification. */
  lemma JustifiedStays(verify: Verifier, cfg: Config, w: World, v: World, key: Key)
    requires key in w.manager.revoked && Justified(verify, cfg, w, key)
    requires key in v.manager.revoked && v.manager.revoked[key] == w.manager.revoked[key]
    requires forall i :: i in IssuersOf(w.manager, key) ==> i in IssuersOf(v.manager, key)
    requires v.votes == w.votes || (exists x :: v.votes == w.votes + [x])
    ensures Justified(verify, cfg, v, key)
  {
    var e := w.manager.revoked[key];
    if e.witnesses != [] && v.votes != w.votes {
      var x :| v.votes == w.votes + [x];
      VotesStay(verify, w.votes, x, key, e.witnesses);
    }
  }

  lemma KeptByBookkeeping(verify: Verifier, cfg: Config, w: World, s: Step)
    requires Inv(verify, cfg, w) && (s.AddTrust? || s.RemoveTrust? || s.AddIssuer?)
    ensures Inv(verify, cfg, Next(verify, cfg, w, s))
  {
    var v := Next(verify, cfg, w, s);
    forall k | k in v.manager.revoked ensures Justified(verify, cfg, v, k) {
      JustifiedStays(verify, cfg, w, v, k);
    }
  }

  /** Whatever path a certificate took, once accepted it is signed by the key's
      holder, where that is allowed, or by a registered issuer. */
  lemma AcceptedIsSigned(verify: Verifier, cfg: Config, m: Manager, c: Certificate, source: Source)
    requires SourceError(verify, cfg, m, c, source).None?
    ensures SignedFor(verify, cfg, m, c.revokedKeyId, c)
  {
  }

  lemma OnceMore(m: Manager, key: Key, e: Entry)
    requires InvalidatedOnce(m) && key !in m.revoked
    ensures InvalidatedOnce(Revoke(m, key, e))
  {
    var v := Revoke(m, key, e);
    forall k ensures k in v.invalidated <==> k in v.revoked {
    }
  }

  lemma KeptByPresent(verify: Verifier, cfg: Config, w: World, s: Step)
    requires Inv(verify, cfg, w) && s.Present?
    ensures Inv(verify, cfg, Next(verify, cfg, w, s))
  {
    var v := Next(verify, cfg, w, s);
    if v != w {
      var key := s.certificate.revokedKeyId;
      AcceptedIsSigned(verify, cfg, w.manager, s.certificate, s.source);
      OnceMore(w.manager, key, v.manager.revoked[key]);
      forall k | k in v.manager.revoked ensures Justified(verify, cfg, v, k) {
        if k != key {
          JustifiedStays(verify, cfg, w, v, k);
        }
      }
    }
  }

  /** Counting a vote keeps the votes on its key in order. */
  lemma CountedVotes(verify: Verifier, w: World, x: Witness, voter: Key)
    requires TrustOk(w.manager) && Counted(verify, w.manager, x, voter)
    requires VotesOk(verify, w.votes, x.revokedKeyId, PendingOf(w.manager, x.revokedKeyId))
    ensures VotesOk(verify, w.votes + [Vote(x, w.manager.trust[voter])], x.revokedKeyId,
                    PendingOf(w.manager, x.revokedKeyId) + [x])
  {
    var before := PendingOf(w.manager, x.revokedKeyId);
    var v := Vote(x, w.manager.trust[voter]);
    VotesStay(verify, w.votes, v, x.revokedKeyId, before);
    assert (w.votes + [v])[|w.votes|] == v;
    assert CastWhileTrusted(w.votes + [v], x);
    forall i, j | 0 <= i < j < |before + [x]| ensures (before + [x])[i].witnessId != (before + [x])[j].witnessId {
      if j == |before| {
        assert !HasVoted(before, voter);
      }
    }
  }

  /** The vote that completes a quorum leaves exactly the quorum on record. */
  lemma QuorumIsExact(verify: Verifier, cfg: Config, w: World, s: Step)
    requires Inv(verify, cfg, w) && s.CastVote? && Counted(verify, w.manager, s.ballot, s.voter)
    requires s.ballot.revokedKeyId in Next(verify, cfg, w, s).manager.revoked
    ensures Justified(verify, cfg, Next(verify, cfg, w, s), s.ballot.revokedKeyId)
  {
    CountedVotes(verify, w, s.ballot, s.voter);
    var v := Next(verify, cfg, w, s);
    assert v.manager.revoked[s.ballot.revokedKeyId].witnesses == PendingOf(w.manager, s.ballot.revokedKeyId)
      + [s.ballot];
  }

  lemma RevokedAfterVote(verify: Verifier, cfg: Config, w: World, s: Step)
    requires Inv(verify, cfg, w) && s.CastVote? && Counted(verify, w.manager, s.ballot, s.voter)
    ensures RevokedOk(verify, cfg, Next(verify, cfg, w, s))
  {
    var v := Next(verify, cfg, w, s);
    assert v.votes == w.votes + [Vote(s.ballot, w.manager.trust[s.voter])];
    forall k | k in v.manager.revoked ensures Justified(verify, cfg, v, k) {
      if k == s.ballot.revokedKeyId {
        QuorumIsExact(verify, cfg, w, s);
      } else {
        JustifiedStays(verify, cfg, w, v, k);
      }
    }
  }

  lemma InvalidatedAfterVote(verify: Verifier, cfg: Config, w: World, s: Step)
    requires Inv(verify, cfg, w) && s.CastVote? && Counted(verify, w.manager, s.ballot, s.voter)
    ensures InvalidatedOnce(Next(verify, cfg, w, s).manager)
  {
    var v := Next(verify, cfg, w, s);
    var key := s.ballot.revokedKeyId;
    if key in v.manager.revoked {
      OnceMore(w.manager, key, v.manager.revoked[key]);
    }
  }

  lemma PendingAfterVote(verify: Verifier, cfg: Config, w: World, s: Step)
    requires Inv(verify, cfg, w) && s.CastVote? && Counted(verify, w.manager, s.ballot, s.voter)
    ensures PendingOk(verify, cfg, Next(verify, cfg, w, s))
  {
    var v := Next(verify, cfg, w, s);
    var x := Vote(s.ballot, w.manager.trust[s.voter]);
    CountedVotes(verify, w, s.ballot, s.voter);
    forall k | k in v.manager.pending
      ensures 0 < |v.manager.pending[k]| < cfg.witnessesRequired && VotesOk(verify, v.votes, k, v.manager.pending[k])
    {
      if k != s.ballot.revokedKeyId {
        VotesStay(verify, w.votes, x, k, w.manager.pending[k]);
      }
    }
  }

  lemma Kept(verify: Verifier, cfg: Config, w: World, s: Step)
    requires Inv(verify, cfg, w)
    ensures Inv(verify, cfg, Next(verify, cfg, w, s))
  {
    match s
    case Present(_, _, _) => KeptByPresent(verify, cfg, w, s);
    case CastVote(_, _, _) =>
      if Counted(verify, w.manager, s.ballot, s.voter) {
        RevokedAfterVote(verify, cfg, w, s);
        InvalidatedAfterVote(verify, cfg, w, s);
        PendingAfterVote(verify, cfg, w, s);
      }
    case _ => KeptByBookkeeping(verify, cfg, w, s);
  }

  lemma {:induction false} KeptByRun(verify: Verifier, cfg: Config, w: World, steps: seq<Step>)
    requires Inv(verify, cfg, w)
    ensures Inv(verify, cfg, Run(verify, cfg, w, steps))
    decreases |steps|
  {
    if steps != [] {
      Kept(verify, cfg, w, steps[0]);
      KeptByRun(verify, cfg, Next(verify, cfg, w, steps[0]), steps[1..]);
    }
  }

  // ---------------------------------------------------------------------
  // What this means.

  /** In every run, each revoked key was revoked by its own valid signature if the
      configuration allows that, by the valid signature of a registered issuer of it, or
      by exactly the required number of valid votes of distinct witnesses trusted when
      they voted. */
  lemma EveryRevocationJustified(verify: Verifier, cfg: Config, steps: seq<Step>, key: Key)
    requires key in Run(verify, cfg, INIT, steps).manager.revoked
    ensures Justified(verify, cfg, Run(verify, cfg, INIT, steps), key)
  {
    KeptByRun(verify, cfg, INIT, steps);
  }

  /** With self-revocation off, a key that no issuer is registered for falls to votes only. */
  lemma NoSelfRevocation(verify: Verifier, cfg: Config, steps: seq<Step>, key: Key)
    requires !cfg.allowSelfRevocation && key in Run(verify, cfg, INIT, steps).manager.revoked
    ensures var w := Run(verify, cfg, INIT, steps);
            IssuersOf(w.manager, key) == [] ==>
              && |w.manager.revoked[key].witnesses| == Quorum(cfg)
              && VotesOk(verify, w.votes, key, w.manager.revoked[key].witnesses)
  {
    EveryRevocationJustified(verify, cfg, steps, key);
  }

  /** The session invalidators fire exactly once per revoked key. */
  lemma InvalidatorsFireOnce(verify: Verifier, cfg: Config, steps: seq<Step>)
    ensures InvalidatedOnce(Run(verify, cfg, INIT, steps).manager)
  {
    KeptByRun(verify, cfg, INIT, steps);
  }

  /** Revocation is permanent, and the record of why is never replaced. */
  lemma {:induction false} RevocationIsPermanent(verify: Verifier, cfg: Config, w: World, steps: seq<Step>, key: Key)
    requires key in w.manager.revoked
    ensures var v := Run(verify, cfg, w, steps).manager;
            key in v.revoked && v.revoked[key] == w.manager.revoked[key]
    decreases |steps|
  {
    if steps != [] {
      RevocationIsPermanent(verify, cfg, Next(verify, cfg, w, steps[0]), steps[1..], key);
    }
  }
}
