/** The rate limit over every run of the gate. */
module RateRuns {
  import opened Policy
  import opened PolicyRuns

  predicate PastRate(p: Phase) {
    p == AtPermit || p == Done(Allowed) || p == Done(AtConcurrencyLimit)
  }

  function KeyOf(c: Call): Key {
    (c.capability, c.peer)
  }

  /** Any two stamps are at least `r` apart. */
  predicate Spaced(r: Duration, s: seq<Stamp>) {
    forall i, j :: 0 <= i < j < |s| ==> s[i].at + r <= s[j].at
  }

  predicate DistinctCalls(s: seq<Stamp>) {
    forall i, j :: 0 <= i < j < |s| ==> s[i].call != s[j].call
  }

  /** The stamps of one key: spaced, the last of them the one on record. */
  predicate StampsOk(entries: Entries, w: World, key: Key) {
    && key.0 in entries && key in w.gate.stamps && key in w.log
    && |w.log[key]| > 0
    && w.log[key][|w.log[key]| - 1].at == w.gate.stamps[key] <= w.now
    && Spaced(entries[key.0].rateLimit, w.log[key])
    && DistinctCalls(w.log[key])
  }

  /** Every stamp belongs to a call of its key that passed the rate limit. */
  predicate StampersOk(w: World, key: Key)
    requires key in w.log
  {
    forall i :: 0 <= i < |w.log[key]| ==>
      var k := w.log[key][i].call;
      k in w.calls && KeyOf(w.calls[k]) == key && PastRate(w.calls[k].phase)
  }

  predicate Stamped(w: World, k: CallId)
    requires k in w.calls
  {
    exists i :: 0 <= i < |StampsOf(w.log, KeyOf(w.calls[k]))| && StampsOf(w.log, KeyOf(w.calls[k]))[i].call == k
  }

  predicate RateInv(entries: Entries, w: World) {
    && (forall key :: key in w.gate.stamps ==> key in w.log)
    && (forall key :: key in w.log ==> StampsOk(entries, w, key) && StampersOk(w, key))
    && (forall k :: k in w.calls && PastRate(w.calls[k].phase) ==> Stamped(w, k))
  }

  // ---------------------------------------------------------------------
  // Preservation. Only one section writes stamps.

  /** No stamp is written and no call moves past the rate limit. */
  predicate Quiet(w: World, v: World) {
    && v.log == w.log && v.gate.stamps == w.gate.stamps && v.now >= w.now
    && (forall k :: k in w.calls ==>
          && k in v.calls && KeyOf(v.calls[k]) == KeyOf(w.calls[k])
          && PastRate(v.calls[k].phase) == PastRate(w.calls[k].phase))
    && (forall k :: k in v.calls && k !in w.calls ==> !PastRate(v.calls[k].phase))
  }

  lemma OtherStepsAreQuiet(entries: Entries, w: World, s: Step)
    requires s.Advance? && s.call in w.calls ==> !Stamping(entries, w, w.calls[s.call])
    ensures Quiet(w, Next(entries, w, s))
  {
  }

  lemma QuietStep(entries: Entries, w: World, v: World)
    requires RateInv(entries, w) && Quiet(w, v)
    ensures RateInv(entries, v)
  {
    forall key | key in v.log ensures StampsOk(entries, v, key) && StampersOk(v, key) {
      assert StampsOk(entries, w, key) && StampersOk(w, key);
    }
    forall k | k in v.calls && PastRate(v.calls[k].phase) ensures Stamped(v, k) {
      assert Stamped(w, k);
    }
  }

  lemma AppendSpaced(r: Duration, s: seq<Stamp>, x: Stamp)
    requires Spaced(r, s)
    requires |s| > 0 ==> s[|s| - 1].at + r <= x.at
    ensures Spaced(r, s + [x])
  {
    forall i, j | 0 <= i < j < |s + [x]| ensures (s + [x])[i].at + r <= (s + [x])[j].at {
    }
  }

  lemma StampedOthers(entries: Entries, w: World, k: CallId, j: CallId)
    requires k in w.calls && w.calls[k].capability in entries && Stamping(entries, w, w.calls[k])
    requires j in w.calls && j != k && Stamped(w, j)
    ensures Stamped(Advanced(entries, w, k), j)
  {
    var v := Advanced(entries, w, k);
    var key := KeyOf(w.calls[j]);
    var i :| 0 <= i < |StampsOf(w.log, key)| && StampsOf(w.log, key)[i].call == j;
    assert KeyOf(v.calls[j]) == key;
    assert StampsOf(v.log, KeyOf(v.calls[j]))[i] == StampsOf(w.log, key)[i];
  }

  lemma NewStampOk(entries: Entries, w: World, k: CallId)
    requires RateInv(entries, w)
    requires k in w.calls && w.calls[k].capability in entries && Stamping(entries, w, w.calls[k])
    ensures var v := Advanced(entries, w, k);
            StampsOk(entries, v, KeyOf(w.calls[k])) && StampersOk(v, KeyOf(w.calls[k])) && Stamped(v, k)
  {
    var v := Advanced(entries, w, k);
    var key := KeyOf(w.calls[k]);
    var s := StampsOf(w.log, key);
    assert v.log[key] == s + [Stamp(k, w.now)];
    if key in w.log {
      assert StampsOk(entries, w, key) && StampersOk(w, key);
      assert forall i :: 0 <= i < |s| ==> s[i].call != k;
    }
    AppendSpaced(entries[key.0].rateLimit, s, Stamp(k, w.now));
    assert StampsOf(v.log, KeyOf(v.calls[k]))[|s|].call == k;
  }

  lemma KeptByStamp(entries: Entries, w: World, k: CallId)
    requires RateInv(entries, w)
    requires k in w.calls && w.calls[k].capability in entries && Stamping(entries, w, w.calls[k])
    ensures RateInv(entries, Advanced(entries, w, k))
  {
    var v := Advanced(entries, w, k);
    NewStampOk(entries, w, k);
    forall key | key in v.log ensures StampsOk(entries, v, key) && StampersOk(v, key) {
      if key != KeyOf(w.calls[k]) {
        assert StampsOk(entries, w, key) && StampersOk(w, key);
      }
    }
    forall j | j in v.calls && PastRate(v.calls[j].phase) ensures Stamped(v, j) {
      if j != k {
        StampedOthers(entries, w, k, j);
      }
    }
  }

  lemma Kept(entries: Entries, w: World, s: Step)
    requires RateInv(entries, w)
    ensures RateInv(entries, Next(entries, w, s))
  {
    if s.Advance? && s.call in w.calls && w.calls[s.call].capability in entries
      && Stamping(entries, w, w.calls[s.call]) {
      KeptByStamp(entries, w, s.call);
    } else {
      OtherStepsAreQuiet(entries, w, s);
      QuietStep(entries, w, Next(entries, w, s));
    }
  }

  lemma {:induction false} KeptByRun(entries: Entries, w: World, steps: seq<Step>)
    requires RateInv(entries, w)
    ensures RateInv(entries, Run(entries, w, steps))
    decreases |steps|
  {
    if steps != [] {
      Kept(entries, w, steps[0]);
      KeptByRun(entries, Next(entries, w, steps[0]), steps[1..]);
    }
  }

  // ---------------------------------------------------------------------
  // What this means.

  /** Two calls of one peer to one capability that were both allowed passed the
      rate limit at least its length apart. */
  lemma AllowedApart(entries: Entries, wall: UnixSeconds, steps: seq<Step>, w: World, a: CallId, b: CallId)
    returns (i: nat, j: nat)
    requires w == Run(entries, Init(entries, wall), steps)
    requires a in w.calls && b in w.calls && a != b && KeyOf(w.calls[a]) == KeyOf(w.calls[b])
    requires w.calls[a].phase == Done(Allowed) && w.calls[b].phase == Done(Allowed)
    ensures var s := StampsOf(w.log, KeyOf(w.calls[a]));
            && KeyOf(w.calls[a]).0 in entries
            && i < |s| && j < |s| && s[i].call == a && s[j].call == b
            && (s[i].at + entries[KeyOf(w.calls[a]).0].rateLimit <= s[j].at
                || s[j].at + entries[KeyOf(w.calls[a]).0].rateLimit <= s[i].at)
  {
    KeptByRun(entries, Init(entries, wall), steps);
    var key := KeyOf(w.calls[a]);
    var s := StampsOf(w.log, key);
    assert Stamped(w, a) && Stamped(w, b);
    i :| 0 <= i < |s| && s[i].call == a;
    j :| 0 <= j < |s| && s[j].call == b;
    assert StampsOk(entries, w, key);
  }

  /** The stamps in `[from, from + width]` whose calls were allowed. */
  function AllowedIn(w: World, s: seq<Stamp>, from: Instant, width: Duration): seq<Stamp> {
    if s == [] then []
    else
      var rest := AllowedIn(w, s[1..], from, width);
      if s[0].call in w.calls && w.calls[s[0].call].phase == Done(Allowed) && from <= s[0].at <= from + width
      then [s[0]] + rest else rest
  }

  lemma {:induction false} AllowedInMembers(w: World, s: seq<Stamp>, from: Instant, width: Duration)
    ensures forall x :: x in AllowedIn(w, s, from, width) ==> x in s && from <= x.at <= from + width
  {
    if s != [] {
      AllowedInMembers(w, s[1..], from, width);
    }
  }

  lemma PrependSpaced(r: Duration, x: Stamp, s: seq<Stamp>)
    requires Spaced(r, s) && forall y :: y in s ==> x.at + r <= y.at
    ensures Spaced(r, [x] + s)
  {
    forall i, j | 0 <= i < j < |[x] + s| ensures ([x] + s)[i].at + r <= ([x] + s)[j].at {
      assert ([x] + s)[j] == s[j - 1] && s[j - 1] in s;
    }
  }

  lemma HeadBefore(r: Duration, s: seq<Stamp>)
    requires Spaced(r, s) && s != []
    ensures Spaced(r, s[1..])
    ensures forall y :: y in s[1..] ==> s[0].at + r <= y.at
  {
  }

  lemma {:induction false} AllowedInSpaced(w: World, s: seq<Stamp>, from: Instant, width: Duration, r: Duration)
    requires Spaced(r, s)
    ensures Spaced(r, AllowedIn(w, s, from, width))
  {
    if s != [] {
      HeadBefore(r, s);
      AllowedInSpaced(w, s[1..], from, width, r);
      AllowedInMembers(w, s[1..], from, width);
      PrependSpaced(r, s[0], AllowedIn(w, s[1..], from, width));
    }
  }

  lemma {:induction false} SpacedSpan(r: Duration, s: seq<Stamp>)
    requires Spaced(r, s) && |s| > 0
    ensures s[0].at + (|s| - 1) * r <= s[|s| - 1].at
  {
    if |s| > 1 {
      var t := s[..|s| - 1];
      SpacedSpan(r, t);
      assert (|s| - 1) * r == (|t| - 1) * r + r;
    }
  }

  lemma LessFactor(a: int, b: int, r: nat)
    requires a * r < b * r
    ensures a < b
  {
    assert a >= b ==> a * r >= b * r;
  }

  lemma CountFromSpan(n: nat, r: Duration, width: Duration)
    requires r > 0 && n > 0 && (n - 1) * r <= width
    ensures n <= width / r + 1
  {
    var q := width / r;
    assert width < (q + 1) * r;
    LessFactor(n - 1, q + 1, r);
  }

  /** Any window of length `width` holds at most `width / r + 1` allowed calls of
      one peer to one capability. */
  lemma WindowBound(entries: Entries, wall: UnixSeconds, steps: seq<Step>, w: World, key: Key, from: Instant,
                    width: Duration)
    requires w == Run(entries, Init(entries, wall), steps)
    requires key.0 in entries && entries[key.0].rateLimit > 0
    ensures |AllowedIn(w, StampsOf(w.log, key), from, width)| <= width / entries[key.0].rateLimit + 1
  {
    KeptByRun(entries, Init(entries, wall), steps);
    var r := entries[key.0].rateLimit;
    var s := StampsOf(w.log, key);
    assert Spaced(r, s) by {
      assert key in w.log ==> StampsOk(entries, w, key);
    }
    SpacedBound(w, s, from, width, r);
  }

  lemma SpacedBound(w: World, s: seq<Stamp>, from: Instant, width: Duration, r: Duration)
    requires Spaced(r, s) && r > 0
    ensures |AllowedIn(w, s, from, width)| <= width / r + 1
  {
    AllowedInSpaced(w, s, from, width, r);
    AllowedInMembers(w, s, from, width);
    var t := AllowedIn(w, s, from, width);
    if |t| > 0 {
      SpacedSpan(r, t);
      assert t[0] in t && t[|t| - 1] in t;
      CountFromSpan(|t|, r, width);
    }
  }
}
