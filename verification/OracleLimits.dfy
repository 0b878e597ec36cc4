/** Where the oracle's invariant would fail: what it rests on is needed. */
module OracleLimits {
  import opened Bridge
  import opened OracleSpec
  import opened OracleReads
  import opened OracleSafety
  import opened OracleTheorems

  lemma PendingCoversExactly(w: World, v: World, observed: nat, end: nat, batch: seq<Event>)
    requires Valid(w) && Valid(v) && Later(w, v) && Caught(w, observed) && end + CONFIRMATION_DELAY <= w.peak
    requires batch == Pending(w.log, observed, end, w.claim.nonce) && batch != []
    ensures Caught(v, end + 1) <==> v.claim.nonce >= batch[|batch| - 1].nonce
  {
    var last := batch[|batch| - 1];
    PendingIsSound(w, observed, end);
    ConfirmedStays(w, v, last);
    PendingHolds(w.log, w.start, w.head, observed, end, w.claim.nonce, last);
    if v.claim.nonce >= last.nonce {
      PendingCovers(w, v, observed, end);
    }
  }

  lemma ActCatchesExactly(sc: Script, n: Net, cfg: Config, observed: nat, end: nat, batch: seq<Event>)
    requires Valid(n.world) && end + CONFIRMATION_DELAY <= n.world.peak
    requires batch == Pending(n.world.log, observed, end, n.world.claim.nonce)
    requires Act(sc, n, cfg, observed, end, batch).exit == Sent
    ensures batch != []
    ensures var r := Act(sc, n, cfg, observed, end, batch);
            Caught(r.net.world, end + 1) <==> !Loses(sc, r) || Passed(n.world, r.net.world, batch[|batch| - 1])
  {
    ActKeeps(sc, n, cfg, observed, end, batch);
    PendingFirst(n.world, observed, end);
    PendingCoversExactly(n.world, Act(sc, n, cfg, observed, end, batch).net.world, observed, end, batch);
  }

  /**
   A round that ends its sending without an error is caught up to its new height exactly if its last
   call was not a claim that is dropped, or the last claim was moved past its batch from elsewhere.
   Without anybody else that one reply decides; what was dropped before it does not matter.
   */
  lemma SentCatchesExactly(sc: Script, n: Net, cfg: Config, observed: nat)
    requires Valid(n.world) && Round(sc, n, cfg, observed).exit == Sent
    ensures RoundBatch(sc, n, cfg, observed) != []
    ensures var r, batch := Round(sc, n, cfg, observed), RoundBatch(sc, n, cfg, observed);
            var w := DecisionWorld(sc, n, cfg, observed);
            && (Caught(r.net.world, r.observed + 1) <==> !Loses(sc, r) || Passed(w, r.net.world, batch[|batch| - 1]))
            && (Alone(w, r.net.world) ==> !Passed(w, r.net.world, batch[|batch| - 1]))
  {
    LookAroundKeeps(sc, n, cfg, observed);
    match LookAround(sc, n, cfg, observed)
    case Looked(m, end, events) =>
      var batch := Batch(events, m.world.claim.nonce);
      ActCatchesExactly(sc, m, cfg, observed, end, batch);
    case Stopped(r) =>
  }

  // ----- how much is lost

  /** The number of dropped claims that the calls from `lo` up to `hi` end with. */
  function Trailing(sc: Script, lo: nat, hi: nat): (d: nat)
    ensures d > 0 ==> hi > lo && sc(hi - 1).reply == Dropped
    decreases hi
  {
    if hi > lo && sc(hi - 1).reply == Dropped then 1 + Trailing(sc, lo, hi - 1) else 0
  }

  lemma {:induction false} TrailingAll(sc: Script, lo: nat, hi: nat)
    requires lo <= hi && forall i :: lo <= i < hi ==> sc(i).reply == Dropped
    ensures Trailing(sc, lo, hi) == hi - lo
  {
    if hi > lo {
      TrailingAll(sc, lo, hi - 1);
    }
  }

  /** Calls before one that was not dropped do not count. */
  lemma {:induction false} TrailingStops(sc: Script, earlier: nat, lo: nat, hi: nat)
    requires earlier <= lo <= hi && (earlier == lo || sc(lo - 1).reply != Dropped)
    ensures Trailing(sc, earlier, hi) == Trailing(sc, lo, hi)
    decreases hi
  {
    if hi > lo {
      TrailingStops(sc, earlier, lo, hi - 1);
    }
  }

  /** As long as nobody else claims, the environment does not move the last claim. */
  lemma AloneTick(sc: Script, n: Net, m: Net, v: World)
    requires Valid(n.world) && m == Tick(sc, n) && Later(m.world, v) && Alone(n.world, v)
    ensures Valid(m.world) && Later(n.world, m.world) && m.world.history == n.world.history && m.world.claim.nonce == n.world.claim.nonce
  {
    TickKeeps(sc, n, []);
  }

  lemma AloneSince(w: World, u: World, v: World)
    requires Alone(w, v) && Later(w, u) && Later(u, v)
    ensures Alone(w, u) && Alone(u, v)
  {
  }

  /** The first claim of several and the others, with the worlds between them. */
  lemma PostAllParts(sc: Script, n: Net, m: Net, k: Net, todo: seq<Event>)
    requires Valid(n.world) && AllConfirmed(n.world, todo) && todo != [] && PostAll(sc, n, todo).0.Done?
    requires m == Tick(sc, n) && k == m.(world := Post(m.world, todo[0], sc(n.pos).reply).1)
    ensures PostAll(sc, n, todo) == PostAll(sc, k, todo[1..])
    ensures Valid(k.world) && AllConfirmed(k.world, todo[1..]) && Later(n.world, k.world)
    ensures var v := PostAll(sc, n, todo).1.world; Valid(v) && Later(k.world, v) && Later(m.world, v)
  {
    PostOneClaims(sc, n, todo[0], todo);
    AllConfirmedStays(n.world, k.world, todo);
    PostAllClaims(sc, k, todo[1..], todo);
    TickKeeps(sc, n, todo);
    ConfirmedStays(n.world, m.world, todo[0]);
    PostClaims(m, todo[0], sc(n.pos).reply, todo);
    LaterTransitive(m.world, k.world, PostAll(sc, n, todo).1.world);
  }

  /** The same without anybody else: the first claim moves the last claim by one, or it is dropped. */
  lemma PostAllAlone(sc: Script, n: Net, todo: seq<Event>) returns (k: Net)
    requires Valid(n.world) && AllConfirmed(n.world, todo) && todo != [] && PostAll(sc, n, todo).0.Done?
    requires Alone(n.world, PostAll(sc, n, todo).1.world)
    ensures k.pos == n.pos + 1 && Valid(k.world) && AllConfirmed(k.world, todo[1..])
    ensures PostAll(sc, n, todo) == PostAll(sc, k, todo[1..]) && Alone(k.world, PostAll(sc, n, todo).1.world)
    ensures if sc(n.pos).reply == Dropped then k.world.claim.nonce == n.world.claim.nonce
            else k.world.claim.nonce == todo[0].nonce == n.world.claim.nonce + 1
  {
    var m, v := Tick(sc, n), PostAll(sc, n, todo).1.world;
    k := m.(world := Post(m.world, todo[0], sc(n.pos).reply).1);
    PostAllParts(sc, n, m, k, todo);
    AloneTick(sc, n, m, v);
    AloneSince(n.world, k.world, v);
  }

  /** Claims beyond the next nonce can only appear to succeed: they are all dropped. */
  lemma {:induction false} AllDropped(sc: Script, n: Net, todo: seq<Event>)
    requires Valid(n.world) && AllConfirmed(n.world, todo) && PostAll(sc, n, todo).0.Done?
    requires Alone(n.world, PostAll(sc, n, todo).1.world)
    requires forall i :: 0 <= i < |todo| ==> todo[i].nonce > n.world.claim.nonce + 1
    ensures var r := PostAll(sc, n, todo).1;
            && r.world.claim.nonce == n.world.claim.nonce && r.pos == n.pos + |todo|
            && forall i :: n.pos <= i < r.pos ==> sc(i).reply == Dropped
    decreases |todo|
  {
    if todo != [] {
      var k := PostAllAlone(sc, n, todo);
      AllDropped(sc, k, todo[1..]);
    }
  }

  lemma {:induction false} PostAllLoses(sc: Script, n: Net, todo: seq<Event>)
    requires Valid(n.world) && AllConfirmed(n.world, todo) && PostAll(sc, n, todo).0.Done?
    requires Alone(n.world, PostAll(sc, n, todo).1.world) && InARow(todo, n.world.claim.nonce)
    ensures var r := PostAll(sc, n, todo).1;
            r.pos == n.pos + |todo| && r.world.claim.nonce + Trailing(sc, n.pos, r.pos) == n.world.claim.nonce + |todo|
    decreases |todo|
  {
    if todo != [] {
      var k := PostAllAlone(sc, n, todo);
      var r := PostAll(sc, n, todo).1;
      if sc(n.pos).reply == Dropped {
        AllDropped(sc, k, todo[1..]);
        TrailingAll(sc, n.pos, r.pos);
      } else {
        PostAllLoses(sc, k, todo[1..]);
        TrailingStops(sc, n.pos, k.pos, r.pos);
      }
    }
  }

  /** Own claims from a row of events stay within it. */
  lemma AloneWithin(w: World, v: World, batch: seq<Event>, base: nat)
    requires Valid(w) && Valid(v) && Later(w, v) && Alone(w, v) && OwnOnly(w, v, batch)
    requires InARow(batch, base) && base <= w.claim.nonce <= base + |batch|
    ensures w.claim.nonce <= v.claim.nonce <= base + |batch|
  {
    if |v.history| > |w.history| {
      assert v.history[|v.history| - 1].event in batch;
    }
  }

  /** The read that an attempt begins with. */
  lemma SendOnceAlone(sc: Script, n: Net, batch: seq<Event>) returns (m: Net)
    requires Valid(n.world) && AllConfirmed(n.world, batch) && Ascending(batch) && SendOnce(sc, n, batch).0.Done?
    requires Alone(n.world, SendOnce(sc, n, batch).1.world)
    ensures m.pos == n.pos + 1 && sc(n.pos).reply == Fine && Valid(m.world) && AllConfirmed(m.world, batch)
    ensures m.world.claim.nonce == n.world.claim.nonce && Alone(m.world, SendOnce(sc, n, batch).1.world)
    ensures SendOnce(sc, n, batch) == PostAll(sc, m, Newer(batch, n.world.claim.nonce))
  {
    m := Tick(sc, n);
    var v := SendOnce(sc, n, batch).1.world;
    TickKeeps(sc, n, []);
    AllConfirmedStays(n.world, m.world, batch);
    NewerAscends(batch, m.world.claim.nonce);
    PostAllClaims(sc, m, Newer(batch, m.world.claim.nonce), batch);
    AloneTick(sc, n, m, v);
    AloneSince(n.world, m.world, v);
  }

  lemma SendOnceLoses(sc: Script, n: Net, batch: seq<Event>, base: nat)
    requires Valid(n.world) && AllConfirmed(n.world, batch) && Ascending(batch) && SendOnce(sc, n, batch).0.Done?
    requires Alone(n.world, SendOnce(sc, n, batch).1.world) && InARow(batch, base)
    requires base <= n.world.claim.nonce <= base + |batch|
    ensures var r := SendOnce(sc, n, batch).1; r.world.claim.nonce + Trailing(sc, 0, r.pos) == base + |batch|
  {
    var m := SendOnceAlone(sc, n, batch);
    NewerRest(batch, base, n.world.claim.nonce);
    var todo := Newer(batch, n.world.claim.nonce);
    assert forall e :: e in todo ==> e in batch;
    PostAllLoses(sc, m, todo);
    TrailingStops(sc, 0, m.pos, SendOnce(sc, n, batch).1.pos);
  }

  /** A failed attempt, and what is still to come. */
  lemma SendAgainAlone(sc: Script, n: Net, m: Net, batch: seq<Event>, base: nat, attempts: nat)
    requires Valid(n.world) && AllConfirmed(n.world, batch) && Ascending(batch) && batch != [] && attempts > 0
    requires SendOnce(sc, n, batch) == (Failed, m) && Alone(n.world, Send(sc, n, batch, attempts).1.world)
    requires InARow(batch, base) && base <= n.world.claim.nonce <= base + |batch|
    ensures Send(sc, n, batch, attempts) == Send(sc, m, batch, attempts - 1)
    ensures Valid(m.world) && AllConfirmed(m.world, batch) && base <= m.world.claim.nonce <= base + |batch|
    ensures Alone(m.world, Send(sc, n, batch, attempts).1.world)
  {
    SendOnceClaims(sc, n, batch);
    AllConfirmedStays(n.world, m.world, batch);
    SendClaims(sc, m, batch, attempts - 1);
    AloneSince(n.world, m.world, Send(sc, n, batch, attempts).1.world);
    AloneWithin(n.world, m.world, batch, base);
  }

  lemma {:induction false} SendLoses(sc: Script, n: Net, batch: seq<Event>, base: nat, attempts: nat)
    requires Valid(n.world) && AllConfirmed(n.world, batch) && Ascending(batch) && batch != []
    requires Send(sc, n, batch, attempts).0.Done? && Alone(n.world, Send(sc, n, batch, attempts).1.world)
    requires InARow(batch, base) && base <= n.world.claim.nonce <= base + |batch|
    ensures var r := Send(sc, n, batch, attempts).1; r.world.claim.nonce + Trailing(sc, 0, r.pos) == base + |batch|
    decreases attempts
  {
    match SendOnce(sc, n, batch)
    case (Failed, m) =>
      SendAgainAlone(sc, n, m, batch, base, attempts);
      SendLoses(sc, m, batch, base, attempts - 1);
    case _ => SendOnceLoses(sc, n, batch, base);
  }

  /** If `e` is the first event that is not claimed, a height is caught exactly if it is not above that of `e`. */
  lemma FirstUnclaimed(v: World, e: Event, h: nat)
    requires Valid(v) && Confirmed(v, e) && e.nonce == v.claim.nonce + 1
    ensures Caught(v, h) <==> h <= e.height
  {
    assert v.log[e.nonce - 1] == e;
    if h <= e.height {
      forall i | 0 <= i < |v.log| && v.log[i].nonce > v.claim.nonce ensures v.log[i].height >= h {
        HeightsRise(v.log, v.start, v.head, e.nonce - 1, i);
      }
    }
  }

  /** With the last `d` events of the batch unclaimed, the height is safe exactly if they are all at that height. */
  lemma LossAndSafety(w: World, v: World, observed: nat, end: nat, batch: seq<Event>, d: nat)
    requires Valid(w) && Valid(v) && Later(w, v) && Caught(w, observed) && end + CONFIRMATION_DELAY <= w.peak
    requires batch == Pending(w.log, observed, end, w.claim.nonce) && batch != []
    requires d <= |batch| && v.claim.nonce + d == batch[|batch| - 1].nonce && InARow(batch, w.claim.nonce)
    ensures Safe(v, end) <==> d == 0 || batch[|batch| - d].height == end
  {
    if d == 0 {
      PendingCoversExactly(w, v, observed, end, batch);
      SafeAt(v, end);
    } else {
      var e := batch[|batch| - d];
      assert e.height <= end && Confirmed(v, e) by {
        PendingIsSound(w, observed, end);
        ConfirmedStays(w, v, e);
        PendingHolds(w.log, w.start, w.head, observed, end, w.claim.nonce, e);
      }
      FirstUnclaimed(v, e, end);
    }
  }

  /**
   The last `d` events of the batch are unclaimed and no others; the height is safe exactly if there
   are none or they are all at that height.
   */
  ghost predicate LeavesBehind(r: Report, batch: seq<Event>, d: nat) {
    && batch != [] && d <= |batch| && r.net.world.claim.nonce + d == batch[|batch| - 1].nonce
    && (Safe(r.net.world, r.observed) <==> d == 0 || batch[|batch| - d].height == r.observed)
  }

  lemma ActLoses(sc: Script, n: Net, cfg: Config, observed: nat, end: nat, batch: seq<Event>)
    requires Valid(n.world) && end + CONFIRMATION_DELAY <= n.world.peak
    requires batch == Pending(n.world.log, observed, end, n.world.claim.nonce)
    requires Act(sc, n, cfg, observed, end, batch).exit == Sent && Alone(n.world, Act(sc, n, cfg, observed, end, batch).net.world)
    ensures var r := Act(sc, n, cfg, observed, end, batch);
            LeavesBehind(r, batch, Trailing(sc, 0, r.net.pos))
  {
    var r := Act(sc, n, cfg, observed, end, batch);
    ActKeeps(sc, n, cfg, observed, end, batch);
    PendingFirst(n.world, observed, end);
    PendingInARow(n.world, observed, end, batch);
    PendingIsSound(n.world, observed, end);
    SendLoses(sc, n, batch, n.world.claim.nonce, cfg.attempts);
    LossAndSafety(n.world, r.net.world, observed, end, batch, Trailing(sc, 0, r.net.pos));
  }

  /**
   Without anybody else, a round that ends its sending without an error leaves exactly as many events
   of its batch unclaimed as its calls end with dropped claims: the last ones. The invariant then
   holds exactly if these events are all in the last scanned block, which the next round scans again.
   */
  lemma RoundLosesExactly(sc: Script, n: Net, cfg: Config, observed: nat)
    requires Valid(n.world) && Round(sc, n, cfg, observed).exit == Sent
    requires Alone(DecisionWorld(sc, n, cfg, observed), Round(sc, n, cfg, observed).net.world)
    ensures var r, batch := Round(sc, n, cfg, observed), RoundBatch(sc, n, cfg, observed);
            LeavesBehind(r, batch, Trailing(sc, 0, r.net.pos))
  {
    LookAroundKeeps(sc, n, cfg, observed);
    match LookAround(sc, n, cfg, observed)
    case Looked(m, end, events) => ActLoses(sc, m, cfg, observed, end, Batch(events, m.world.claim.nonce));
    case Stopped(r) =>
  }

  // ----- what the invariant rests on

  /** All calls succeed at once, and the claim at position 9 is dropped after its check. */
  function DroppingScript(): Script {
    (i: nat) => Turn([], if i == 9 then Dropped else Fine)
  }

  /** One unclaimed event, well confirmed. */
  function OneEvent(e: Event, cfg: Config): World {
    World(0, 40, 40, [e], 0, Claim(0, 0), [], [cfg.address])
  }

  lemma {:induction false} FineKinds(n: Net, a: nat, b: nat, kinds: seq<Kind>)
    requires n.pos + |kinds| <= 9
    ensures ReadKinds(DroppingScript(), n, a, b, kinds).0.Done?
    ensures ReadKinds(DroppingScript(), n, a, b, kinds).1 == Net(n.world, n.pos + |kinds|)
    decreases |kinds|
  {
    if kinds != [] {
      FineKinds(Tick(DroppingScript(), n), a, b, kinds[1..]);
    }
  }

  lemma FineLook(w: World, cfg: Config)
    requires w.head == 40 && cfg.address in w.active
    ensures var look := LookAround(DroppingScript(), Net(w, 0), cfg, 0);
            look.Looked? && look.net == Net(w, 8) && look.end == 28
  {
    var sc := DroppingScript();
    assert Read(sc, Net(w, 1), cfg.attempts) == (Done(()), Net(w, 2));
    FineKinds(Net(w, 2), 0, 28, QUERY_ORDER);
    assert Read(sc, Net(w, 7), cfg.attempts) == (Done(()), Net(w, 8));
  }

  lemma OneEventPending(e: Event, cfg: Config)
    requires e.nonce == 1 && e.height <= 27
    ensures Valid(OneEvent(e, cfg)) && Safe(OneEvent(e, cfg), 0)
    ensures Pending([e], 0, 28, 0) == [e]
  {
    BelowSplits([e], 0, 40, 0);
    BelowSplits([e], 0, 40, 29);
    assert [e][0].height < 29;
  }

  lemma DroppedSend(e: Event, cfg: Config)
    requires e.nonce == 1
    ensures var w := OneEvent(e, cfg); Act(DroppingScript(), Net(w, 8), cfg, 0, 28, [e]) == Report(Sent, Net(w, 10), 28)
  {
    var sc, w := DroppingScript(), OneEvent(e, cfg);
    assert Newer([e], 0) == [e];
    assert PostAll(sc, Net(w, 9), [e]) == (Done(()), Net(w, 10));
    assert SendOnce(sc, Net(w, 8), [e]) == (Done(()), Net(w, 10));
    assert Send(sc, Net(w, 8), [e], cfg.attempts) == (Done(()), Net(w, 10));
  }

  /** A single dropped claim is enough to break the invariant: the event is passed over unclaimed. */
  lemma DropBreaksInvariant(e: Event, cfg: Config)
    requires e.nonce == 1 && e.height <= 27
    ensures var n := Net(OneEvent(e, cfg), 0);
            var r := Round(DroppingScript(), n, cfg, 0);
            Valid(n.world) && Safe(n.world, 0) && r.exit == Sent && !Caught(r.net.world, r.observed)
  {
    var w := OneEvent(e, cfg);
    FineLook(w, cfg);
    OneEventPending(e, cfg);
    LookAroundKeeps(DroppingScript(), Net(w, 0), cfg, 0);
    DroppedSend(e, cfg);
    assert w.log[0].nonce > w.claim.nonce;
  }

  /**
   A restart has to rescan the block of the last claim: it can hold further events, so the height
   after it would not be safe.
   */
  lemma RestartBlockMustBeRescanned(e: Event, f: Event)
    requires e.nonce == 1 && f.nonce == 2 && e.height == f.height <= 28
    ensures var w := World(0, 40, 40, [e, f], 0, Claim(1, e.height), [Own(e)], []);
            Valid(w) && Safe(w, w.claim.height) && !Caught(w, w.claim.height + 1)
  {
    var w := World(0, 40, 40, [e, f], 0, Claim(1, e.height), [Own(e)], []);
    assert EntryOk(w, 0);
    assert w.log[1].nonce > w.claim.nonce;
  }
}
