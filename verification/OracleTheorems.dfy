/** The oracle's guarantees: per round, and over every run. */
module OracleTheorems {
  import opened Bridge
  import opened OracleSpec
  import opened OracleReads
  import opened OracleSafety

  // ----- one round

  /** The events a round decides to claim: none if it stops before the decision. */
  ghost function RoundBatch(sc: Script, n: Net, cfg: Config, observed: nat): seq<Event> {
    match LookAround(sc, n, cfg, observed)
    case Stopped(_) => []
    case Looked(m, _, events) => Batch(events, m.world.claim.nonce)
  }

  lemma ActKeeps(sc: Script, n: Net, cfg: Config, observed: nat, end: nat, batch: seq<Event>)
    requires Valid(n.world) && end + CONFIRMATION_DELAY <= n.world.peak
    requires batch == Pending(n.world.log, observed, end, n.world.claim.nonce)
    ensures var r := Act(sc, n, cfg, observed, end, batch);
            && After(n, r.net, batch)
            && (r.exit == Gap <==> batch != [] && !Caught(n.world, observed))
            && (r.exit == NoNews <==> batch == [])
            && (r.exit == Sent ==> ReachesExactly(sc, n, r.net, batch[|batch| - 1]))
  {
    if batch != [] {
      PendingFirst(n.world, observed, end);
      PendingIsSound(n.world, observed, end);
      SendClaims(sc, n, batch, cfg.attempts);
    }
  }

  /** Whatever the script does, a round leaves a valid world and claims only events of its batch. */
  lemma RoundKeeps(sc: Script, n: Net, cfg: Config, observed: nat)
    requires Valid(n.world)
    ensures After(n, Round(sc, n, cfg, observed).net, RoundBatch(sc, n, cfg, observed))
  {
    LookAroundKeeps(sc, n, cfg, observed);
    match LookAround(sc, n, cfg, observed)
    case Stopped(r) =>
    case Looked(m, end, events) =>
      var batch := Batch(events, m.world.claim.nonce);
      ActKeeps(sc, m, cfg, observed, end, batch);
      AfterTransitive(n, m, Act(sc, m, cfg, observed, end, batch).net, batch);
  }

  /**
   The gap exit is taken exactly when there is something new and an event below the observed height
   is unclaimed; never when the invariant holds.
   */
  lemma GapMeansMissed(sc: Script, n: Net, cfg: Config, observed: nat)
    requires Valid(n.world)
    ensures var look := LookAround(sc, n, cfg, observed);
            Round(sc, n, cfg, observed).exit == Gap <==>
            look.Looked? && RoundBatch(sc, n, cfg, observed) != [] && !Caught(look.net.world, observed)
    ensures Safe(n.world, observed) ==> Round(sc, n, cfg, observed).exit != Gap
  {
    LookAroundKeeps(sc, n, cfg, observed);
    match LookAround(sc, n, cfg, observed)
    case Stopped(r) =>
    case Looked(m, end, events) =>
      ActKeeps(sc, m, cfg, observed, end, Batch(events, m.world.claim.nonce));
      if Safe(n.world, observed) {
        SafeStays(n.world, m.world, observed);
      }
  }

  /** The world in which a round decides: after its last read, before its first claim. */
  ghost function DecisionWorld(sc: Script, n: Net, cfg: Config, observed: nat): World {
    match LookAround(sc, n, cfg, observed)
    case Stopped(r) => r.net.world
    case Looked(m, _, _) => m.world
  }

  /** The height of the last event that is claimed, in the log itself; 0 if none is. */
  ghost function ClaimedHeight(w: World): nat
    requires Valid(w)
  {
    if w.claim.nonce == 0 then 0 else w.log[w.claim.nonce - 1].height
  }

  /**
   A gap resets the height to that of the last claimed event: to the greatest height at which the
   log has a claimed event, or to 0 if nothing is claimed. It claims nothing.
   */
  lemma GapResets(sc: Script, n: Net, cfg: Config, observed: nat)
    requires Valid(n.world) && Round(sc, n, cfg, observed).exit == Gap
    ensures var r := Round(sc, n, cfg, observed);
            && r.net.world == DecisionWorld(sc, n, cfg, observed) && Valid(r.net.world)
            && r.observed == ClaimedHeight(r.net.world)
            && (forall e :: e in r.net.world.log && e.nonce <= r.net.world.claim.nonce ==> e.height <= r.observed)
  {
    LookAroundKeeps(sc, n, cfg, observed);
    var w := DecisionWorld(sc, n, cfg, observed);
    ClaimedBelow(w);
  }

  lemma ClaimedBelow(w: World)
    requires Valid(w)
    ensures w.claim.height == ClaimedHeight(w)
    ensures forall e :: e in w.log && e.nonce <= w.claim.nonce ==> e.height <= ClaimedHeight(w)
  {
    forall e | e in w.log && e.nonce <= w.claim.nonce ensures e.height <= ClaimedHeight(w) {
      var i :| 0 <= i < |w.log| && w.log[i] == e;
      HeightsRise(w.log, w.start, w.head, i, w.claim.nonce - 1);
    }
  }

  lemma SafeAt(w: World, end: nat)
    requires Caught(w, end + 1) && end + CONFIRMATION_DELAY <= w.peak
    ensures Safe(w, end)
  {
  }

  lemma ActRestores(sc: Script, n: Net, cfg: Config, observed: nat, end: nat, batch: seq<Event>)
    requires Valid(n.world) && end + CONFIRMATION_DELAY <= n.world.peak
    requires batch == Pending(n.world.log, observed, end, n.world.claim.nonce)
    requires !Loses(sc, Act(sc, n, cfg, observed, end, batch))
    ensures var r := Act(sc, n, cfg, observed, end, batch);
            && (r.exit == Sent ==> Safe(r.net.world, end) && Caught(r.net.world, end + 1))
            && (r.exit == Gap ==> Safe(r.net.world, r.observed))
            && (r.exit == NoNews && Caught(n.world, observed) ==> Safe(r.net.world, end) && Caught(r.net.world, end + 1))
  {
    ActKeeps(sc, n, cfg, observed, end, batch);
    var r := Act(sc, n, cfg, observed, end, batch);
    if r.exit == Gap {
      ClaimHeightIsSafe(n.world);
    } else if r.exit == Sent || (r.exit == NoNews && Caught(n.world, observed)) {
      if r.exit == Sent {
        PendingFirst(n.world, observed, end);
      }
      PendingCovers(n.world, r.net.world, observed, end);
      SafeAt(r.net.world, end);
    }
  }

  /** Without news the height is safe exactly if nothing below the old height was missed. */
  lemma NoNewsRestores(w: World, observed: nat, end: nat)
    requires Valid(w) && observed <= end && end + CONFIRMATION_DELAY <= w.peak
    requires Pending(w.log, observed, end, w.claim.nonce) == []
    ensures Safe(w, end) <==> Caught(w, observed)
  {
    if Caught(w, observed) {
      PendingCovers(w, w, observed, end);
    }
  }

  /** What the second half of a round restores, from any world. */
  ghost predicate Restores(r: Report, observed: nat) {
    && (r.exit == Sent || r.exit == Gap ==> Safe(r.net.world, r.observed))
    && (r.exit == NoNews ==> (Safe(r.net.world, r.observed) <==> Caught(r.net.world, observed)))
    && (r.exit == Sent ==> Caught(r.net.world, r.observed + 1))
  }

  lemma ActRestoresAll(sc: Script, n: Net, cfg: Config, observed: nat, end: nat, batch: seq<Event>)
    requires Valid(n.world) && observed <= end && end + CONFIRMATION_DELAY <= n.world.peak
    requires batch == Pending(n.world.log, observed, end, n.world.claim.nonce)
    requires !Loses(sc, Act(sc, n, cfg, observed, end, batch))
    ensures Restores(Act(sc, n, cfg, observed, end, batch), observed)
  {
    if batch == [] {
      NoNewsRestores(n.world, observed, end);
    } else {
      ActRestores(sc, n, cfg, observed, end, batch);
    }
  }

  /**
   From any world, a round that claims or resets ends with the invariant, unless its last call is a
   claim that is dropped; drops before that are made good by the retries. A round without news does
   so exactly if nothing below the old height was missed.
   */
  lemma RoundRestores(sc: Script, n: Net, cfg: Config, observed: nat)
    requires Valid(n.world)
    requires !Loses(sc, Round(sc, n, cfg, observed))
    ensures Restores(Round(sc, n, cfg, observed), observed)
  {
    LookAroundKeeps(sc, n, cfg, observed);
    match LookAround(sc, n, cfg, observed)
    case Stopped(r) =>
    case Looked(m, end, events) => ActRestoresAll(sc, m, cfg, observed, end, Batch(events, m.world.claim.nonce));
  }

  lemma ActSafe(sc: Script, n: Net, cfg: Config, observed: nat, end: nat, batch: seq<Event>)
    requires Valid(n.world) && end + CONFIRMATION_DELAY <= n.world.peak && Safe(n.world, observed)
    requires batch == Pending(n.world.log, observed, end, n.world.claim.nonce)
    requires !Loses(sc, Act(sc, n, cfg, observed, end, batch))
    ensures var r := Act(sc, n, cfg, observed, end, batch); Safe(r.net.world, r.observed)
  {
    ActKeeps(sc, n, cfg, observed, end, batch);
    ActRestores(sc, n, cfg, observed, end, batch);
    SafeStays(n.world, Act(sc, n, cfg, observed, end, batch).net.world, observed);
  }

  /** The invariant is kept by every round whose last call is not a claim that is dropped. */
  lemma RoundSafe(sc: Script, n: Net, cfg: Config, observed: nat)
    requires Valid(n.world) && Safe(n.world, observed)
    requires !Loses(sc, Round(sc, n, cfg, observed))
    ensures Safe(Round(sc, n, cfg, observed).net.world, Round(sc, n, cfg, observed).observed)
  {
    LookAroundKeeps(sc, n, cfg, observed);
    match LookAround(sc, n, cfg, observed)
    case Stopped(r) => SafeStays(n.world, r.net.world, observed);
    case Looked(m, end, events) =>
      SafeStays(n.world, m.world, observed);
      ActSafe(sc, m, cfg, observed, end, Batch(events, m.world.claim.nonce));
  }

  // ----- what a round claims

  /**
   Event `e` went over the last claim between `w` and `v`: as this oracle's own claim, or because
   the last claim was advanced past it from elsewhere.
   */
  ghost predicate Settled(w: World, v: World, e: Event) {
    exists j :: |w.history| <= j < |v.history| && Before(v, j) < e.nonce <= v.history[j].event.nonce &&
                (v.history[j].Own? ==> v.history[j].event == e)
  }

  function Owned(batch: seq<Event>): (r: seq<Entry>)
    ensures |r| == |batch| && forall i :: 0 <= i < |r| ==> r[i] == Own(batch[i])
  {
    seq(|batch|, i requires 0 <= i < |batch| => Own(batch[i]))
  }

  /** No entry that `v` has and `w` had not was made elsewhere. */
  ghost predicate Alone(w: World, v: World) {
    forall i :: |w.history| <= i < |v.history| ==> v.history[i].Own?
  }

  lemma PendingSettled(w: World, v: World, observed: nat, end: nat, batch: seq<Event>, e: Event)
    requires Valid(w) && Valid(v) && Later(w, v) && end + CONFIRMATION_DELAY <= w.peak
    requires batch == Pending(w.log, observed, end, w.claim.nonce) && e in batch
    requires v.claim.nonce >= batch[|batch| - 1].nonce
    ensures Settled(w, v, e)
  {
    PendingIsSound(w, observed, end);
    PendingHolds(w.log, w.start, w.head, observed, end, w.claim.nonce, e);
    BatchSettled(w, v, batch, e);
  }

  /** A batch that continues the last claim does so without a gap. */
  lemma PendingInARow(w: World, observed: nat, end: nat, batch: seq<Event>)
    requires Valid(w) && batch == Pending(w.log, observed, end, w.claim.nonce) && batch != [] && Caught(w, observed)
    ensures InARow(batch, w.claim.nonce)
  {
    PendingFirst(w, observed, end);
  }

  lemma PendingOwned(w: World, v: World, observed: nat, end: nat, batch: seq<Event>)
    requires Valid(w) && Valid(v) && Later(w, v) && OwnOnly(w, v, batch) && end + CONFIRMATION_DELAY <= w.peak
    requires batch == Pending(w.log, observed, end, w.claim.nonce) && batch != [] && Caught(w, observed)
    requires v.claim.nonce >= batch[|batch| - 1].nonce && Alone(w, v)
    ensures v.history == w.history + Owned(batch)
  {
    PendingIsSound(w, observed, end);
    PendingInARow(w, observed, end, batch);
    AloneClaimsBatch(w, v, batch);
  }

  lemma ActClaimsExactly(sc: Script, n: Net, cfg: Config, observed: nat, end: nat, batch: seq<Event>)
    requires Valid(n.world) && end + CONFIRMATION_DELAY <= n.world.peak
    requires batch == Pending(n.world.log, observed, end, n.world.claim.nonce)
    requires Act(sc, n, cfg, observed, end, batch).exit == Sent
    requires !Loses(sc, Act(sc, n, cfg, observed, end, batch))
    ensures var v := Act(sc, n, cfg, observed, end, batch).net.world;
            && (forall e :: e in batch ==> Settled(n.world, v, e))
            && (Alone(n.world, v) ==> v.history == n.world.history + Owned(batch))
  {
    ActKeeps(sc, n, cfg, observed, end, batch);
    var v := Act(sc, n, cfg, observed, end, batch).net.world;
    forall e | e in batch ensures Settled(n.world, v, e) {
      PendingSettled(n.world, v, observed, end, batch, e);
    }
    if Alone(n.world, v) {
      PendingOwned(n.world, v, observed, end, batch);
    }
  }

  /** The i-th claim after `w` has the i-th nonce, and so is the i-th event of the batch. */
  lemma AloneClaimsAt(w: World, v: World, batch: seq<Event>, i: nat)
    requires Valid(w) && Valid(v) && Later(w, v) && AllConfirmed(w, batch) && Alone(w, v)
    requires i < |batch| && |w.history| + i < |v.history| && batch[i].nonce == w.claim.nonce + 1 + i
    ensures v.history[|w.history| + i] == Own(batch[i])
  {
    NoncesInARow(w, v, i);
    assert EntryOk(v, |w.history| + i);
    assert batch[i] in batch;
    ConfirmedStays(w, v, batch[i]);
  }

  lemma AloneCounts(w: World, v: World, batch: seq<Event>)
    requires Valid(w) && Valid(v) && Later(w, v) && Alone(w, v) && OwnOnly(w, v, batch)
    requires batch != [] && InARow(batch, w.claim.nonce)
    requires v.claim.nonce >= batch[|batch| - 1].nonce
    ensures |v.history| == |w.history| + |batch|
  {
    NoncesInARow(w, v, |v.history| - |w.history|);
    if |v.history| > |w.history| {
      assert v.history[|v.history| - 1].event in batch;
    }
  }

  lemma AloneClaimsBatch(w: World, v: World, batch: seq<Event>)
    requires Valid(w) && Valid(v) && Later(w, v) && AllConfirmed(w, batch) && Alone(w, v) && OwnOnly(w, v, batch)
    requires batch != [] && InARow(batch, w.claim.nonce)
    requires v.claim.nonce >= batch[|batch| - 1].nonce
    ensures v.history == w.history + Owned(batch)
  {
    AloneCounts(w, v, batch);
    var g, h := w.history, v.history;
    forall i: nat | i < |batch| ensures h[|g| + i] == Own(batch[i]) {
      AloneClaimsAt(w, v, batch, i);
    }
    HistoryGrown(g, h, batch);
  }

  lemma HistoryGrown(g: seq<Entry>, h: seq<Entry>, batch: seq<Event>)
    requires g <= h && |h| == |g| + |batch| && forall i :: 0 <= i < |batch| ==> h[|g| + i] == Own(batch[i])
    ensures h == g + Owned(batch)
  {
    assert h[|g|..] == Owned(batch);
  }

  lemma {:induction false} NoncesInARow(w: World, v: World, i: nat)
    requires Valid(w) && Valid(v) && Later(w, v) && Alone(w, v) && |w.history| + i <= |v.history|
    ensures Before(v, |w.history| + i) == w.claim.nonce + i
  {
    if i > 0 {
      NoncesInARow(w, v, i - 1);
      assert EntryOk(v, |w.history| + i - 1);
    }
  }

  /** The batch of a round is what the log holds in the scanned range above the last claim, in log order. */
  lemma RoundBatchMeans(sc: Script, n: Net, cfg: Config, observed: nat)
    requires Valid(n.world) && LookAround(sc, n, cfg, observed).Looked?
    ensures var look := LookAround(sc, n, cfg, observed);
            var batch := RoundBatch(sc, n, cfg, observed);
            && (forall e :: e in batch <==>
                  e in look.net.world.log && observed <= e.height <= look.end && e.nonce > look.net.world.claim.nonce)
            && Ascending(batch)
  {
    LookAroundKeeps(sc, n, cfg, observed);
    var look := LookAround(sc, n, cfg, observed);
    var w := look.net.world;
    PendingMeans(w.log, w.start, w.head, observed, look.end, w.claim.nonce);
  }

  /**
   The claims of a successful round that does not end on a dropped claim are the events of its batch
   and no others, each once and in order, whatever failed or was dropped before; an event of the batch is missing only where the last claim was advanced past it from
   elsewhere.
   */
  lemma RoundClaimsExactly(sc: Script, n: Net, cfg: Config, observed: nat)
    requires Valid(n.world)
    requires Round(sc, n, cfg, observed).exit == Sent
    requires !Loses(sc, Round(sc, n, cfg, observed))
    ensures LookAround(sc, n, cfg, observed).Looked?
    ensures var r := Round(sc, n, cfg, observed);
            var w := LookAround(sc, n, cfg, observed).net.world;
            var batch := RoundBatch(sc, n, cfg, observed);
            && OwnOnly(n.world, r.net.world, batch)
            && (forall e :: e in batch ==> Settled(w, r.net.world, e))
            && (Alone(w, r.net.world) ==> r.net.world.history == w.history + Owned(batch))
  {
    LookAroundKeeps(sc, n, cfg, observed);
    RoundKeeps(sc, n, cfg, observed);
    var look := LookAround(sc, n, cfg, observed);
    ActClaimsExactly(sc, look.net, cfg, observed, look.end, RoundBatch(sc, n, cfg, observed));
  }

  lemma BatchSettled(w: World, v: World, batch: seq<Event>, e: Event)
    requires Valid(w) && Valid(v) && Later(w, v) && AllConfirmed(w, batch) && Ascending(batch)
    requires e in batch && e.nonce > w.claim.nonce && v.claim.nonce >= batch[|batch| - 1].nonce
    ensures Settled(w, v, e)
  {
    assert e.nonce <= v.claim.nonce;
    assert Before(v, |w.history|) == w.claim.nonce;
    var j := EntryOver(v, |w.history|, e.nonce);
    ConfirmedStays(w, v, e);
    assert EntryOk(v, j);
  }
}
