/** What every round and every run of the oracle keeps, and what a round claims. */
module OracleSafety {
  import opened Bridge
  import opened OracleSpec
  import opened OracleReads

  // ----- sending claims

  ghost predicate AllConfirmed(w: World, batch: seq<Event>) {
    forall e :: e in batch ==> Confirmed(w, e)
  }

  lemma AllConfirmedStays(w: World, v: World, batch: seq<Event>)
    requires Later(w, v) && AllConfirmed(w, batch)
    ensures AllConfirmed(v, batch)
  {
    forall e | e in batch ensures Confirmed(v, e) {
      ConfirmedStays(w, v, e);
    }
  }

  lemma PostClaims(n: Net, e: Event, reply: Reply, batch: seq<Event>)
    requires Valid(n.world) && Confirmed(n.world, e) && e in batch
    ensures var r := Post(n.world, e, reply);
            && After(n, n.(world := r.1), batch)
            && (r.0 && reply != Dropped ==> r.1.claim.nonce == e.nonce)
  {
    if e.nonce == n.world.claim.nonce + 1 {
      RecordKeeps(n.world, Own(e));
    }
  }

  /** The environment's moves and one claim. */
  lemma PostOneClaims(sc: Script, n: Net, e: Event, batch: seq<Event>)
    requires Valid(n.world) && Confirmed(n.world, e) && e in batch
    ensures var m := Tick(sc, n);
            var (ok, w) := Post(m.world, e, sc(n.pos).reply);
            && After(n, m.(world := w), batch)
            && (ok && sc(n.pos).reply != Dropped ==> w.claim.nonce == e.nonce)
  {
    var m := Tick(sc, n);
    TickKeeps(sc, n, batch);
    ConfirmedStays(n.world, m.world, e);
    PostClaims(m, e, sc(n.pos).reply, batch);
    AfterTransitive(n, m, m.(world := Post(m.world, e, sc(n.pos).reply).1), batch);
  }

  lemma {:induction false} PostAllClaims(sc: Script, n: Net, todo: seq<Event>, batch: seq<Event>)
    requires Valid(n.world) && AllConfirmed(n.world, todo) && forall e :: e in todo ==> e in batch
    ensures After(n, PostAll(sc, n, todo).1, batch)
    decreases |todo|
  {
    if todo != [] {
      var m := Tick(sc, n);
      var (ok, w) := Post(m.world, todo[0], sc(n.pos).reply);
      var k := m.(world := w);
      PostOneClaims(sc, n, todo[0], batch);
      if ok {
        AllConfirmedStays(n.world, w, todo);
        PostAllClaims(sc, k, todo[1..], batch);
        AfterTransitive(n, k, PostAll(sc, n, todo).1, batch);
      }
    }
  }

  /** A sending that is done ends with the last claim on its last event, unless that one is dropped. */
  lemma {:induction false} PostAllReaches(sc: Script, n: Net, todo: seq<Event>)
    requires Valid(n.world) && AllConfirmed(n.world, todo) && todo != [] && PostAll(sc, n, todo).0.Done?
    ensures var r := PostAll(sc, n, todo).1;
            r.pos == n.pos + |todo| && (!EndsDropped(sc, r) ==> r.world.claim.nonce == todo[|todo| - 1].nonce)
    decreases |todo|
  {
    var m := Tick(sc, n);
    var w := Post(m.world, todo[0], sc(n.pos).reply).1;
    PostOneClaims(sc, n, todo[0], todo);
    if |todo| > 1 {
      AllConfirmedStays(n.world, w, todo);
      PostAllReaches(sc, m.(world := w), todo[1..]);
    }
  }

  /** If the last one is dropped, what was claimed comes before it. */
  lemma {:induction false} PostAllMisses(sc: Script, n: Net, todo: seq<Event>)
    requires Valid(n.world) && AllConfirmed(n.world, todo) && todo != [] && PostAll(sc, n, todo).0.Done?
    requires EndsDropped(sc, PostAll(sc, n, todo).1)
    ensures After(n, PostAll(sc, n, todo).1, todo[..|todo| - 1])
    decreases |todo|
  {
    var m := Tick(sc, n);
    var w := Post(m.world, todo[0], sc(n.pos).reply).1;
    var k, before := m.(world := w), todo[..|todo| - 1];
    if |todo| == 1 {
      TickKeeps(sc, n, before);
    } else {
      PostOneClaims(sc, n, todo[0], before);
      AllConfirmedStays(n.world, w, todo);
      PostAllMisses(sc, k, todo[1..]);
      AfterMore(k, PostAll(sc, k, todo[1..]).1, todo[1..][..|todo| - 2], before);
      AfterTransitive(n, k, PostAll(sc, n, todo).1, before);
    }
  }

  ghost predicate Ascending(batch: seq<Event>) {
    forall i, j :: 0 <= i < j < |batch| ==> batch[i].nonce < batch[j].nonce
  }

  lemma {:induction false} NewerKeepsLast(batch: seq<Event>, c: nat)
    requires Ascending(batch) && batch != []
    ensures forall e :: e in Newer(batch, c) ==> e in batch
    ensures if Newer(batch, c) == [] then batch[|batch| - 1].nonce <= c
            else Newer(batch, c)[|Newer(batch, c)| - 1] == batch[|batch| - 1]
  {
    if |batch| > 1 {
      NewerKeepsLast(batch[1..], c);
    }
  }

  /** Some entry of the history carries the last claim over nonce `k`. */
  lemma {:induction false} EntryOver(w: World, i: nat, k: nat) returns (j: nat)
    requires Valid(w) && i <= |w.history| && Before(w, i) < k <= w.claim.nonce
    ensures i <= j < |w.history| && Before(w, j) < k <= w.history[j].event.nonce
    decreases |w.history| - i
  {
    if k <= w.history[i].event.nonce {
      j := i;
    } else {
      j := EntryOver(w, i + 1, k);
    }
  }

  /** The last claim is not behind any entry of the history. */
  lemma {:induction false} ClaimIsLatest(w: World, j: nat)
    requires Valid(w) && j < |w.history|
    ensures w.history[j].event.nonce <= w.claim.nonce
    decreases |w.history| - j
  {
    if j + 1 < |w.history| {
      assert EntryOk(w, j + 1);
      ClaimIsLatest(w, j + 1);
    }
  }

  /** Between `w` and `v` the last claim was moved to `e` or past it from elsewhere. */
  ghost predicate Passed(w: World, v: World, e: Event) {
    exists j :: |w.history| <= j < |v.history| && v.history[j].Elsewhere? && v.history[j].event.nonce >= e.nonce
  }

  lemma PassedReaches(w: World, v: World, e: Event)
    requires Valid(v) && Passed(w, v, e)
    ensures v.claim.nonce >= e.nonce
  {
    var j :| |w.history| <= j < |v.history| && v.history[j].Elsewhere? && v.history[j].event.nonce >= e.nonce;
    ClaimIsLatest(v, j);
  }

  lemma PassedSince(w: World, u: World, v: World, e: Event)
    requires Later(w, u) && Passed(u, v, e)
    ensures Passed(w, v, e)
  {
  }

  /** If this oracle's own claims all come before `e`, only somebody else can have claimed it. */
  lemma OnlyPassed(w: World, v: World, before: seq<Event>, e: Event)
    requires Valid(w) && Valid(v) && Later(w, v) && OwnOnly(w, v, before)
    requires forall d :: d in before ==> d.nonce < e.nonce
    requires w.claim.nonce < e.nonce <= v.claim.nonce
    ensures Passed(w, v, e)
  {
    assert Before(v, |w.history|) == w.claim.nonce;
    var j := EntryOver(v, |w.history|, e.nonce);
  }

  /**
   What a successful sending has reached: the last event of the batch, exactly if its last call was
   not a dropped claim or the last claim was moved there from elsewhere.
   */
  ghost predicate ReachesExactly(sc: Script, n: Net, m: Net, last: Event) {
    m.world.claim.nonce >= last.nonce <==> !EndsDropped(sc, m) || Passed(n.world, m.world, last)
  }

  lemma {:induction false} PostAllExactly(sc: Script, n: Net, todo: seq<Event>, last: Event)
    requires Valid(n.world) && AllConfirmed(n.world, todo) && Ascending(todo) && PostAll(sc, n, todo).0.Done?
    requires todo != [] && last == todo[|todo| - 1] && n.world.claim.nonce < last.nonce
    ensures ReachesExactly(sc, n, PostAll(sc, n, todo).1, last)
  {
    var r := PostAll(sc, n, todo).1;
    PostAllReaches(sc, n, todo);
    PostAllClaims(sc, n, todo, todo);
    if EndsDropped(sc, r) {
      PostAllMisses(sc, n, todo);
      if r.world.claim.nonce >= last.nonce {
        OnlyPassed(n.world, r.world, todo[..|todo| - 1], last);
      }
    }
    if Passed(n.world, r.world, last) {
      PassedReaches(n.world, r.world, last);
    }
  }

  lemma {:induction false} NewerAscends(batch: seq<Event>, c: nat)
    requires Ascending(batch)
    ensures Ascending(Newer(batch, c)) && forall e :: e in Newer(batch, c) ==> e in batch && e.nonce > c
  {
    if batch != [] {
      NewerAscends(batch[1..], c);
    }
  }

  lemma SendOnceClaims(sc: Script, n: Net, batch: seq<Event>)
    requires Valid(n.world) && AllConfirmed(n.world, batch) && Ascending(batch)
    ensures After(n, SendOnce(sc, n, batch).1, batch)
  {
    var m := Tick(sc, n);
    TickKeeps(sc, n, batch);
    if sc(n.pos).reply == Fine {
      var todo := Newer(batch, m.world.claim.nonce);
      NewerAscends(batch, m.world.claim.nonce);
      AllConfirmedStays(n.world, m.world, batch);
      PostAllClaims(sc, m, todo, batch);
      AfterTransitive(n, m, PostAll(sc, m, todo).1, batch);
    }
  }

  /** Since a later point is since an earlier one. */
  lemma ReachesSince(sc: Script, n: Net, m: Net, r: Net, last: Event)
    requires Later(n.world, m.world) && Valid(r.world) && ReachesExactly(sc, m, r, last)
    ensures ReachesExactly(sc, n, r, last)
  {
    if Passed(m.world, r.world, last) {
      PassedSince(n.world, m.world, r.world, last);
    }
    if Passed(n.world, r.world, last) {
      PassedReaches(n.world, r.world, last);
    }
  }

  lemma SendOnceExactly(sc: Script, n: Net, batch: seq<Event>)
    requires Valid(n.world) && AllConfirmed(n.world, batch) && Ascending(batch) && batch != []
    requires SendOnce(sc, n, batch).0.Done?
    ensures ReachesExactly(sc, n, SendOnce(sc, n, batch).1, batch[|batch| - 1])
  {
    var m := Tick(sc, n);
    var todo, last := Newer(batch, m.world.claim.nonce), batch[|batch| - 1];
    TickKeeps(sc, n, batch);
    NewerKeepsLast(batch, m.world.claim.nonce);
    if todo != [] {
      NewerAscends(batch, m.world.claim.nonce);
      AllConfirmedStays(n.world, m.world, batch);
      PostAllExactly(sc, m, todo, last);
      PostAllClaims(sc, m, todo, batch);
      ReachesSince(sc, n, m, PostAll(sc, m, todo).1, last);
    }
  }

  lemma {:induction false} SendClaims(sc: Script, n: Net, batch: seq<Event>, attempts: nat)
    requires Valid(n.world) && AllConfirmed(n.world, batch) && Ascending(batch) && batch != []
    ensures var r := Send(sc, n, batch, attempts);
            After(n, r.1, batch) && (r.0.Done? ==> ReachesExactly(sc, n, r.1, batch[|batch| - 1]))
    decreases attempts
  {
    if attempts > 0 {
      SendOnceClaims(sc, n, batch);
      var (out, m) := SendOnce(sc, n, batch);
      if out.Failed? {
        var r := Send(sc, m, batch, attempts - 1);
        AllConfirmedStays(n.world, m.world, batch);
        SendClaims(sc, m, batch, attempts - 1);
        AfterTransitive(n, m, r.1, batch);
        if r.0.Done? {
          ReachesSince(sc, n, m, r.1, batch[|batch| - 1]);
        }
      } else if out.Done? {
        SendOnceExactly(sc, n, batch);
      }
    }
  }

  // ----- one round

  /** What a round knows once it has read everything: its batch is what is pending in the scanned range. */
  ghost predicate Informed(n: Net, m: Net, observed: nat, end: nat, events: seq<Event>) {
    && After(n, m, [])
    && observed < end <= observed + BLOCKS_TO_SEARCH
    && end + CONFIRMATION_DELAY <= m.world.peak
    && Batch(events, m.world.claim.nonce) == Pending(m.world.log, observed, end, m.world.claim.nonce)
  }

  /** A last read after the events were fetched. */
  lemma ReadInforms(sc: Script, n: Net, m: Net, attempts: nat, observed: nat, end: nat, events: seq<Event>)
    requires Valid(n.world) && observed < end <= observed + BLOCKS_TO_SEARCH && end + CONFIRMATION_DELAY <= n.world.peak
    requires After(n, m, []) && multiset(events) == multiset(InWindow(n.world.log, observed, end))
    ensures Informed(n, Read(sc, m, attempts).1, observed, end, events)
  {
    ReadKeeps(sc, m, attempts);
    var k := Read(sc, m, attempts).1;
    AfterTransitive(n, m, k, []);
    BatchIsPending(n, k, observed, end, events, k.world.claim.nonce);
  }

  /** The reads of a scan are all done, or one of them has failed and nothing has changed. */
  ghost predicate Gathered(n: Net, look: Look, observed: nat, end: nat) {
    match look
    case Stopped(r) => After(n, r.net, []) && r.observed == observed && r.exit in {Error, Died}
    case Looked(m, e, events) => e == end && Informed(n, m, observed, end, events)
  }

  lemma GatherKeeps(sc: Script, n: Net, cfg: Config, observed: nat, end: nat)
    requires Valid(n.world) && observed < end <= observed + BLOCKS_TO_SEARCH
    requires end + CONFIRMATION_DELAY <= n.world.peak
    ensures Gathered(n, Gather(sc, n, cfg, observed, end), observed, end)
  {
    FetchKeeps(sc, n, observed, end, cfg.attempts);
    match Fetch(sc, n, observed, end, cfg.attempts)
    case (Done(events), m) => GatherAfterFetch(sc, n, m, cfg, observed, end, events);
    case _ =>
  }

  lemma GatherAfterFetch(sc: Script, n: Net, m: Net, cfg: Config, observed: nat, end: nat, events: seq<Event>)
    requires Valid(n.world) && observed < end <= observed + BLOCKS_TO_SEARCH && end + CONFIRMATION_DELAY <= n.world.peak
    requires Fetch(sc, n, observed, end, cfg.attempts) == (Done(events), m)
    requires After(n, m, []) && multiset(events) == multiset(InWindow(n.world.log, observed, end))
    ensures Gathered(n, Gather(sc, n, cfg, observed, end), observed, end)
  {
    ReadInforms(sc, n, m, cfg.attempts, observed, end, events);
  }

  lemma InformedTransitive(n: Net, k: Net, m: Net, observed: nat, end: nat, events: seq<Event>)
    requires After(n, k, []) && Informed(k, m, observed, end, events)
    ensures Informed(n, m, observed, end, events)
  {
    AfterTransitive(n, k, m, []);
  }

  lemma GatherOnKeeps(sc: Script, n: Net, k: Net, cfg: Config, observed: nat, end: nat)
    requires After(n, k, []) && ScanEnd(k.world.head, observed) == To(end)
    ensures Gathered(n, Gather(sc, k, cfg, observed, end), observed, end)
  {
    GatherKeeps(sc, k, cfg, observed, end);
    match Gather(sc, k, cfg, observed, end)
    case Stopped(r) => AfterTransitive(n, k, r.net, []);
    case Looked(l, e, events) => InformedTransitive(n, k, l, observed, end, events);
  }

  lemma LookAroundKeeps(sc: Script, n: Net, cfg: Config, observed: nat)
    requires Valid(n.world)
    ensures match LookAround(sc, n, cfg, observed)
            case Stopped(r) => After(n, r.net, []) && r.observed == observed && r.exit !in {NoNews, Gap, Sent}
            case Looked(m, end, events) => Informed(n, m, observed, end, events)
  {
    var m := Tick(sc, n);
    TickKeeps(sc, n, []);
    if sc(n.pos).reply == Fine && cfg.address in m.world.active {
      ReadKeeps(sc, m, cfg.attempts);
      var (out, k) := Read(sc, m, cfg.attempts);
      AfterTransitive(n, m, k, []);
      if out.Done? && ScanEnd(k.world.head, observed).To? {
        GatherOnKeeps(sc, n, k, cfg, observed, ScanEnd(k.world.head, observed).end);
      }
    }
  }

  /** Every event below the observed height is claimed. */
  ghost predicate Caught(w: World, observed: nat) {
    forall i :: 0 <= i < |w.log| && w.log[i].height < observed ==> w.log[i].nonce <= w.claim.nonce
  }

  /** The invariant: all is caught, and no reorganisation reaches below the observed height. */
  ghost predicate Safe(w: World, observed: nat) {
    Caught(w, observed) && (observed + CONFIRMATION_DELAY <= w.peak || observed <= w.start)
  }

  lemma SafeStays(w: World, v: World, observed: nat)
    requires Valid(w) && Valid(v) && Later(w, v) && Safe(w, observed)
    ensures Safe(v, observed)
  {
    forall i | 0 <= i < |v.log| && v.log[i].height < observed ensures v.log[i].nonce <= v.claim.nonce {
      assert v.log[i] == w.log[i];
    }
  }

  /** A gap opens the batch exactly when an event below the observed height is unclaimed. */
  lemma PendingFirst(w: World, observed: nat, end: nat)
    requires Valid(w) && Pending(w.log, observed, end, w.claim.nonce) != []
    ensures Pending(w.log, observed, end, w.claim.nonce)[0].nonce == w.claim.nonce + 1 <==> Caught(w, observed)
  {
    BelowSplits(w.log, w.start, w.head, observed);
    var below := Below(w.log, observed);
    if w.claim.nonce < below {
      assert w.log[below - 1].height < observed && w.log[below - 1].nonce > w.claim.nonce;
    }
  }

  /** What is pending is confirmed and ascending. */
  lemma PendingIsSound(w: World, observed: nat, end: nat)
    requires Valid(w) && end + CONFIRMATION_DELAY <= w.peak
    ensures AllConfirmed(w, Pending(w.log, observed, end, w.claim.nonce))
    ensures Ascending(Pending(w.log, observed, end, w.claim.nonce))
  {
    var batch := Pending(w.log, observed, end, w.claim.nonce);
    PendingMeans(w.log, w.start, w.head, observed, end, w.claim.nonce);
    forall e | e in batch ensures Confirmed(w, e) {
      assert e in w.log && e.height <= end;
      var i :| 0 <= i < |w.log| && w.log[i] == e;
    }
  }

  /** Once the last pending event is claimed, everything up to `end` is. */
  lemma PendingCovers(w: World, v: World, observed: nat, end: nat)
    requires Valid(w) && Valid(v) && Later(w, v) && Caught(w, observed) && end + CONFIRMATION_DELAY <= w.peak
    requires var batch := Pending(w.log, observed, end, w.claim.nonce);
             batch == [] || v.claim.nonce >= batch[|batch| - 1].nonce
    ensures Caught(v, end + 1)
  {
    BelowSplits(w.log, w.start, w.head, observed);
    BelowSplits(w.log, w.start, w.head, end + 1);
    forall i | 0 <= i < |v.log| && v.log[i].height < end + 1 ensures v.log[i].nonce <= v.claim.nonce {
      assert v.log[i] == w.log[i];
    }
  }

  lemma ClaimHeightIsSafe(w: World)
    requires Valid(w)
    ensures Safe(w, w.claim.height)
  {
    forall i | 0 <= i < |w.log| && w.log[i].nonce > w.claim.nonce ensures w.log[i].height >= w.claim.height {
      if w.claim.nonce > 0 {
        HeightsRise(w.log, w.start, w.head, w.claim.nonce - 1, i);
      }
    }
  }
}
