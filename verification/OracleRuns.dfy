/** The oracle over every run: any number of rounds, crashes and restarts, with any script. */
module OracleRuns {
  import opened Bridge
  import opened OracleSpec
  import opened OracleReads
  import opened OracleSafety
  import opened OracleTheorems
  import opened OracleRetries

  ghost predicate SafeState(s: State) {
    Valid(s.net.world) && (s.process.Up? ==> Safe(s.net.world, s.process.observed))
  }

  lemma IdentifyKeeps(sc: Script, n: Net, m: Net, height: nat)
    requires After(n, m, []) && Safe(m.world, height)
    ensures After(n, Identify(sc, m, height).net, []) && SafeState(Identify(sc, m, height))
  {
    var k := Tick(sc, m);
    TickKeeps(sc, m, []);
    AfterTransitive(n, m, k, []);
    SafeStays(m.world, k.world, height);
  }

  lemma StartHeightIsSafe(w: World)
    requires Valid(w)
    ensures Safe(w, w.start)
  {
  }

  lemma StartKeeps(sc: Script, n: Net)
    requires Valid(n.world)
    ensures After(n, Start(sc, n).net, []) && SafeState(Start(sc, n))
  {
    var m := Tick(sc, n);
    TickKeeps(sc, n, []);
    if sc(n.pos).reply == Fine && m.world.claim.height != 0 {
      ClaimHeightIsSafe(m.world);
      IdentifyKeeps(sc, n, m, m.world.claim.height);
    } else if sc(n.pos).reply != Crash {
      var k := Tick(sc, m);
      TickKeeps(sc, m, []);
      AfterTransitive(n, m, k, []);
      StartHeightIsSafe(k.world);
      IdentifyKeeps(sc, n, k, k.world.start);
    }
  }

  /**
   Which height a start chooses, and how many calls it makes: the height of the last claimed event
   after two calls, or the contract's start height after three if that is 0 or could not be read.
   Any other answer leaves the process down.
   */
  ghost predicate ChosenStart(sc: Script, n: Net, s: State) {
    var one, two, three := Ticks(sc, n, 1), Ticks(sc, n, 2), Ticks(sc, n, 3);
    && Valid(one.world)
    && var known := sc(n.pos).reply == Fine && ClaimedHeight(one.world) != 0;
       && (known && sc(n.pos + 1).reply == Fine ==> s == State(two, Up(ClaimedHeight(one.world))))
       && (!known && sc(n.pos).reply != Crash && sc(n.pos + 1).reply == Fine && sc(n.pos + 2).reply == Fine ==>
             s == State(three, Up(n.world.start)))
       && (s.process.Up? ==>
             sc(n.pos).reply != Crash && sc(n.pos + 1).reply == Fine && (known || sc(n.pos + 2).reply == Fine))
  }

  lemma StartChooses(sc: Script, n: Net)
    requires Valid(n.world)
    ensures ChosenStart(sc, n, Start(sc, n))
  {
    var one := Tick(sc, n);
    TickKeeps(sc, n, []);
    ClaimedBelow(one.world);
    TickKeeps(sc, one, []);
    assert Ticks(sc, n, 1) == one && Ticks(sc, n, 2) == Tick(sc, one) && Ticks(sc, n, 3) == Tick(sc, Tick(sc, one));
  }

  lemma StepKeeps(sc: Script, s: State, cfg: Config)
    requires Valid(s.net.world)
    ensures var t := Step(sc, s, cfg);
            Valid(t.net.world) && Later(s.net.world, t.net.world) && s.net.pos <= t.net.pos
  {
    match s.process
    case Down => StartKeeps(sc, s.net);
    case Up(observed) => RoundKeeps(sc, s.net, cfg, observed);
  }

  lemma StepForward(sc: Script, s: State, cfg: Config)
    requires Valid(s.net.world)
    ensures Valid(Step(sc, s, cfg).net.world) && s.net.pos <= Step(sc, s, cfg).net.pos
  {
    StepKeeps(sc, s, cfg);
  }

  lemma StepSafe(sc: Script, s: State, cfg: Config)
    requires SafeState(s) && !StepLoses(sc, s, cfg)
    ensures SafeState(Step(sc, s, cfg))
  {
    StepKeeps(sc, s, cfg);
    match s.process
    case Down => StartKeeps(sc, s.net);
    case Up(observed) => RoundSafe(sc, s.net, cfg, observed);
  }

  lemma {:induction false} RunStepsOn(sc: Script, s: State, cfg: Config, steps: nat)
    ensures Run(sc, s, cfg, steps + 1) == Step(sc, Run(sc, s, cfg, steps), cfg)
    decreases steps
  {
    if steps > 0 {
      RunStepsOn(sc, Step(sc, s, cfg), cfg, steps - 1);
    }
  }

  /** `v` is a world that can come after `w`. */
  ghost predicate Onward(w: World, v: World) {
    Valid(v) && Later(w, v)
  }

  lemma StepExtends(sc: Script, w: World, s: State, t: State, cfg: Config)
    requires Onward(w, s.net.world) && t == Step(sc, s, cfg)
    ensures Onward(w, t.net.world)
  {
    StepKeeps(sc, s, cfg);
    LaterTransitive(w, s.net.world, t.net.world);
  }

  lemma {:induction false} RunKeeps(sc: Script, w: World, s: State, cfg: Config, steps: nat)
    requires Onward(w, s.net.world)
    ensures Onward(w, Run(sc, s, cfg, steps).net.world)
    decreases steps
  {
    if steps > 0 {
      var t := Step(sc, s, cfg);
      StepExtends(sc, w, s, t, cfg);
      RunKeeps(sc, w, t, cfg, steps - 1);
    }
  }

  /**
   In every run, what was claimed stays claimed and confirmed: no claimed event is reorganised out,
   and each claim of the oracle is the log's event at the nonce after the last claim.
   */
  lemma ClaimsStand(sc: Script, s: State, cfg: Config, steps: nat)
    requires Valid(s.net.world)
    ensures var w, v := s.net.world, Run(sc, s, cfg, steps).net.world;
            && w.history <= v.history
            && (forall i :: 0 <= i < |v.history| ==>
                  && Confirmed(v, v.history[i].event)
                  && Before(v, i) < v.history[i].event.nonce
                  && (v.history[i].Own? ==> v.history[i].event.nonce == Before(v, i) + 1))
  {
    RunKeeps(sc, s.net.world, s, cfg, steps);
    var v := Run(sc, s, cfg, steps).net.world;
    forall i | 0 <= i < |v.history|
      ensures Confirmed(v, v.history[i].event) && Before(v, i) < v.history[i].event.nonce
      ensures v.history[i].Own? ==> v.history[i].event.nonce == Before(v, i) + 1
    {
      assert EntryOk(v, i);
    }
  }

  lemma SafeStepOn(sc: Script, s: State, t: State, cfg: Config)
    requires SafeState(s) && !StepLoses(sc, s, cfg) && t == Step(sc, s, cfg)
    ensures SafeState(t)
  {
    StepSafe(sc, s, cfg);
  }

  /** As long as no round ends on a dropped claim, every run keeps the invariant. */
  lemma {:induction false} RunSafe(sc: Script, s: State, cfg: Config, steps: nat)
    requires SafeState(s) && NoLoss(sc, s, cfg, steps)
    ensures SafeState(Run(sc, s, cfg, steps))
  {
    if steps > 0 {
      RunSafe(sc, s, cfg, steps - 1);
      RunStepsOn(sc, s, cfg, steps - 1);
      SafeStepOn(sc, Run(sc, s, cfg, steps - 1), Run(sc, s, cfg, steps), cfg);
    }
  }

  lemma SafeStateHasNoGap(sc: Script, s: State, cfg: Config)
    requires SafeState(s)
    ensures !IsGap(sc, s, cfg)
  {
    if s.process.Up? {
      GapMeansMissed(sc, s.net, cfg, s.process.observed);
    }
  }

  lemma GapRestores(sc: Script, s: State, cfg: Config)
    requires Valid(s.net.world) && IsGap(sc, s, cfg)
    ensures SafeState(Step(sc, s, cfg))
  {
    StepForward(sc, s, cfg);
    RoundRestores(sc, s.net, cfg, s.process.observed);
  }

  /**
   After a gap reset no further one follows, however many steps and restarts later, unless a round
   in between has ended on a dropped claim.
   */
  lemma {:induction false} GapsNeedDrops(sc: Script, s: State, t: State, cfg: Config, steps: nat)
    requires Valid(s.net.world) && IsGap(sc, s, cfg) && t == Step(sc, s, cfg)
    requires NoLoss(sc, t, cfg, steps)
    ensures !IsGap(sc, Run(sc, t, cfg, steps), cfg)
  {
    GapRestores(sc, s, cfg);
    RunSafe(sc, t, cfg, steps);
    SafeStateHasNoGap(sc, Run(sc, t, cfg, steps), cfg);
  }

  // ----- catching up

  /** From here on nothing moves but the oracle, and every call succeeds. */
  ghost predicate Calm(sc: Script, from: nat) {
    forall i :: from <= i ==> sc(i) == Turn([], Fine)
  }

  ghost predicate SameChain(w: World, v: World) {
    v == w.(claim := v.claim, history := v.history)
  }

  lemma {:induction false} CalmKinds(sc: Script, n: Net, a: nat, b: nat, kinds: seq<Kind>)
    requires Calm(sc, n.pos)
    ensures ReadKinds(sc, n, a, b, kinds).0.Done?
    ensures ReadKinds(sc, n, a, b, kinds).1 == Net(n.world, n.pos + |kinds|)
    decreases |kinds|
  {
    if kinds != [] {
      CalmKinds(sc, Tick(sc, n), a, b, kinds[1..]);
    }
  }

  lemma {:induction false} CalmPosts(sc: Script, n: Net, todo: seq<Event>)
    requires Calm(sc, n.pos) && InARow(todo, n.world.claim.nonce)
    ensures PostAll(sc, n, todo).0.Done?
    ensures SameChain(n.world, PostAll(sc, n, todo).1.world) && PostAll(sc, n, todo).1.pos == n.pos + |todo|
    decreases |todo|
  {
    if todo != [] {
      var k := Tick(sc, n).(world := Record(n.world, Own(todo[0])));
      CalmPosts(sc, k, todo[1..]);
    }
  }

  lemma CalmSend(sc: Script, n: Net, batch: seq<Event>, attempts: nat)
    requires Calm(sc, n.pos) && attempts > 0
    requires InARow(batch, n.world.claim.nonce)
    ensures var r := Send(sc, n, batch, attempts);
            r.0.Done? && SameChain(n.world, r.1.world) && r.1.pos == n.pos + 1 + |batch| && !EndsDropped(sc, r.1)
  {
    NewerInARow(batch, n.world.claim.nonce, n.world.claim.nonce);
    CalmPosts(sc, Tick(sc, n), batch);
  }

  /** Where the claims of `batch` stand that begins after nonce `base`: the world in which all are made. */
  function Claimed(w: World, batch: seq<Event>): World
    decreases |batch|
  {
    if batch == [] then w else Claimed(Record(w, Own(batch[0])), batch[1..])
  }

  lemma {:induction false} CalmPostsClaim(sc: Script, n: Net, todo: seq<Event>)
    requires Calm(sc, n.pos) && InARow(todo, n.world.claim.nonce)
    ensures PostAll(sc, n, todo) == (Done(()), Net(Claimed(n.world, todo), n.pos + |todo|))
    decreases |todo|
  {
    if todo != [] {
      var k := Net(Record(n.world, Own(todo[0])), n.pos + 1);
      CalmPostsClaim(sc, k, todo[1..]);
    }
  }

  lemma {:induction false} ClaimedHistory(w: World, batch: seq<Event>)
    ensures Claimed(w, batch).history == w.history + Owned(batch)
    ensures batch != [] ==> Claimed(w, batch).claim.nonce == batch[|batch| - 1].nonce
    decreases |batch|
  {
    if batch != [] {
      var v := Record(w, Own(batch[0]));
      ClaimedHistory(v, batch[1..]);
      assert v.history + Owned(batch[1..]) == w.history + Owned(batch);
    }
  }

  lemma {:induction false} SendOnceCalm(sc: Script, n: Net, batch: seq<Event>, rest: seq<Event>)
    requires Calm(sc, n.pos) && rest == Newer(batch, n.world.claim.nonce) && InARow(rest, n.world.claim.nonce)
    ensures SendOnce(sc, n, batch) == (Done(()), Net(Claimed(n.world, rest), n.pos + 1 + |rest|))
  {
    var m := Net(n.world, n.pos + 1);
    assert Tick(sc, n) == m;
    CalmPostsClaim(sc, m, rest);
  }

  lemma SendFirst(sc: Script, n: Net, batch: seq<Event>, attempts: nat, r: (Out<()>, Net))
    requires attempts > 0 && r == SendOnce(sc, n, batch) && r.0.Done?
    ensures Send(sc, n, batch, attempts) == r
  {
  }

  /**
   An attempt resumes where an earlier one has stopped: from any last claim within the batch, and
   with no failure from here on, exactly the rest of the batch is claimed.
   */
  lemma {:induction false} SendResumes(sc: Script, n: Net, batch: seq<Event>, base: nat, attempts: nat)
    requires Calm(sc, n.pos) && attempts > 0 && InARow(batch, base) && base <= n.world.claim.nonce <= base + |batch|
    ensures var r, rest := Send(sc, n, batch, attempts), batch[n.world.claim.nonce - base..];
            && r == (Done(()), Net(Claimed(n.world, rest), n.pos + 1 + |rest|))
            && r.1.world.history == n.world.history + Owned(rest)
  {
    var rest := batch[n.world.claim.nonce - base..];
    NewerRest(batch, base, n.world.claim.nonce);
    SendOnceCalm(sc, n, batch, rest);
    SendFirst(sc, n, batch, attempts, SendOnce(sc, n, batch));
    ClaimedHistory(n.world, rest);
  }

  lemma CalmAct(sc: Script, n: Net, cfg: Config, observed: nat, end: nat, batch: seq<Event>)
    requires Valid(n.world) && Calm(sc, n.pos) && Caught(n.world, observed)
    requires batch == Pending(n.world.log, observed, end, n.world.claim.nonce)
    ensures var r := Act(sc, n, cfg, observed, end, batch);
            && (r.exit == Sent || r.exit == NoNews) && r.observed == end && !Loses(sc, r)
            && SameChain(n.world, r.net.world) && n.pos <= r.net.pos
  {
    if batch != [] {
      PendingInARow(n.world, observed, end, batch);
      CalmSend(sc, n, batch, cfg.attempts);
    }
  }

  lemma ActCatches(sc: Script, n: Net, cfg: Config, observed: nat, end: nat, batch: seq<Event>)
    requires Valid(n.world) && Caught(n.world, observed) && end + CONFIRMATION_DELAY <= n.world.peak
    requires batch == Pending(n.world.log, observed, end, n.world.claim.nonce)
    requires var r := Act(sc, n, cfg, observed, end, batch); (r.exit == Sent || r.exit == NoNews) && !Loses(sc, r)
    ensures var v := Act(sc, n, cfg, observed, end, batch).net.world; Valid(v) && Safe(v, end) && Caught(v, end + 1)
  {
    ActKeeps(sc, n, cfg, observed, end, batch);
    ActRestores(sc, n, cfg, observed, end, batch);
  }

  /** Where the scan of a round ends that is not up to date. */
  function NextEnd(head: nat, observed: nat): nat
    requires observed + CONFIRMATION_DELAY < head
  {
    if head - CONFIRMATION_DELAY > observed + BLOCKS_TO_SEARCH then observed + BLOCKS_TO_SEARCH else head - CONFIRMATION_DELAY
  }

  lemma CalmLook(sc: Script, n: Net, cfg: Config, observed: nat)
    requires Calm(sc, n.pos) && cfg.address in n.world.active
    requires observed + CONFIRMATION_DELAY < n.world.head
    ensures var look := LookAround(sc, n, cfg, observed);
            && look.Looked? && look.net.world == n.world && n.pos <= look.net.pos
            && look.end == NextEnd(n.world.head, observed)
  {
    var k := Tick(sc, Tick(sc, n));
    assert Read(sc, Tick(sc, n), cfg.attempts) == (Done(()), k);
    CalmKinds(sc, k, observed, ScanEnd(n.world.head, observed).end, QUERY_ORDER);
  }

  /** What a calm round leaves behind once it has reached `end`. */
  ghost predicate CaughtUp(n: Net, r: Report, end: nat) {
    && r.observed == end && SameChain(n.world, r.net.world) && n.pos <= r.net.pos
    && Valid(r.net.world) && Safe(r.net.world, end) && Caught(r.net.world, end + 1)
  }

  lemma CalmActCatches(sc: Script, n: Net, cfg: Config, observed: nat, end: nat, batch: seq<Event>)
    requires Valid(n.world) && Calm(sc, n.pos) && Caught(n.world, observed) && end + CONFIRMATION_DELAY <= n.world.peak
    requires batch == Pending(n.world.log, observed, end, n.world.claim.nonce)
    ensures var r := Act(sc, n, cfg, observed, end, batch); (r.exit == Sent || r.exit == NoNews) && CaughtUp(n, r, end)
  {
    CalmAct(sc, n, cfg, observed, end, batch);
    ActCatches(sc, n, cfg, observed, end, batch);
  }

  lemma CalmRound(sc: Script, n: Net, cfg: Config, observed: nat)
    requires Valid(n.world) && Safe(n.world, observed) && Calm(sc, n.pos) && cfg.address in n.world.active
    requires observed + CONFIRMATION_DELAY < n.world.head
    ensures var r := Round(sc, n, cfg, observed);
            (r.exit == Sent || r.exit == NoNews) && CaughtUp(n, r, NextEnd(n.world.head, observed))
  {
    CalmLook(sc, n, cfg, observed);
    LookAroundKeeps(sc, n, cfg, observed);
    var look := LookAround(sc, n, cfg, observed);
    CalmActCatches(sc, look.net, cfg, observed, look.end, RoundBatch(sc, n, cfg, observed));
  }

  lemma CalmStep(sc: Script, s: State, cfg: Config)
    requires SafeState(s) && s.process.Up? && Calm(sc, s.net.pos) && cfg.address in s.net.world.active
    requires s.process.observed + CONFIRMATION_DELAY < s.net.world.head
    ensures var t := Step(sc, s, cfg);
            && SafeState(t) && SameChain(s.net.world, t.net.world) && s.net.pos <= t.net.pos
            && t.process == Up(NextEnd(s.net.world.head, s.process.observed))
            && Caught(t.net.world, t.process.observed + 1)
  {
    CalmRound(sc, s.net, cfg, s.process.observed);
  }

  /** `t` is where `rounds` calm rounds lead from `s`. */
  ghost predicate CalmlyReached(s: State, t: State, rounds: nat) {
    && s.process.Up? && SafeState(t) && SameChain(s.net.world, t.net.world) && s.net.pos <= t.net.pos
    && var latest, reach := s.net.world.head - CONFIRMATION_DELAY, s.process.observed + BLOCKS_TO_SEARCH * rounds;
       && (latest > reach ==> t.process == Up(reach))
       && (0 <= latest <= reach && rounds > 0 ==> t.process == Up(latest))
       && (rounds > 0 && t.process.Up? ==> Caught(t.net.world, t.process.observed + 1))
  }

  lemma CalmlyNext(s: State, t: State, u: State, rounds: nat)
    requires CalmlyReached(s, t, rounds)
    requires s.process.observed + BLOCKS_TO_SEARCH * rounds + CONFIRMATION_DELAY < s.net.world.head
    requires SafeState(u) && SameChain(t.net.world, u.net.world) && t.net.pos <= u.net.pos
    requires u.process == Up(NextEnd(t.net.world.head, t.process.observed)) && Caught(u.net.world, u.process.observed + 1)
    ensures CalmlyReached(s, u, rounds + 1)
  {
  }

  lemma CalmlyOn(sc: Script, s: State, t: State, cfg: Config, rounds: nat)
    requires CalmlyReached(s, t, rounds) && Calm(sc, s.net.pos) && cfg.address in s.net.world.active
    requires s.process.observed + BLOCKS_TO_SEARCH * rounds + CONFIRMATION_DELAY < s.net.world.head
    ensures CalmlyReached(s, Step(sc, t, cfg), rounds + 1)
  {
    CalmStep(sc, t, cfg);
    CalmlyNext(s, t, Step(sc, t, cfg), rounds);
  }

  /** After `rounds` calm rounds, none of which had reached the confirmed head before. */
  lemma {:induction false} CalmRun(sc: Script, s: State, cfg: Config, rounds: nat)
    requires SafeState(s) && s.process.Up? && Calm(sc, s.net.pos) && cfg.address in s.net.world.active
    requires s.process.observed + CONFIRMATION_DELAY < s.net.world.head
    requires rounds > 0 ==> s.process.observed + BLOCKS_TO_SEARCH * (rounds - 1) + CONFIRMATION_DELAY < s.net.world.head
    ensures CalmlyReached(s, Run(sc, s, cfg, rounds), rounds)
  {
    if rounds > 0 {
      RunStepsOn(sc, s, cfg, rounds - 1);
      CalmRun(sc, s, cfg, rounds - 1);
      CalmlyOn(sc, s, Run(sc, s, cfg, rounds - 1), cfg, rounds - 1);
    }
  }

  /** The number of windows from the observed height to the confirmed head. */
  function RoundsToCatchUp(observed: nat, latest: nat): nat
    requires observed < latest
  {
    (latest - observed + BLOCKS_TO_SEARCH - 1) / BLOCKS_TO_SEARCH
  }

  /**
   With a fixed head and no failures, exactly ceil((head - 12 - observed) / 2000) rounds bring the
   height to head - 12, with every event up to there claimed; before the last of them the height is
   a whole number of windows further and still below head - 12.
   */
  lemma CatchUp(sc: Script, s: State, cfg: Config)
    requires SafeState(s) && s.process.Up? && Calm(sc, s.net.pos) && cfg.address in s.net.world.active
    requires s.process.observed + CONFIRMATION_DELAY < s.net.world.head
    ensures var latest := s.net.world.head - CONFIRMATION_DELAY;
            var rounds := RoundsToCatchUp(s.process.observed, latest);
            && Run(sc, s, cfg, rounds).process == Up(latest)
            && Caught(Run(sc, s, cfg, rounds).net.world, latest + 1)
            && forall j: nat :: j < rounds ==>
                 && Run(sc, s, cfg, j).process == Up(s.process.observed + BLOCKS_TO_SEARCH * j)
                 && s.process.observed + BLOCKS_TO_SEARCH * j < latest
  {
    var latest := s.net.world.head - CONFIRMATION_DELAY;
    var rounds := RoundsToCatchUp(s.process.observed, latest);
    CalmRun(sc, s, cfg, rounds);
    forall j: nat | j < rounds
      ensures Run(sc, s, cfg, j).process == Up(s.process.observed + BLOCKS_TO_SEARCH * j)
      ensures s.process.observed + BLOCKS_TO_SEARCH * j < latest
    {
      if j > 0 {
        CalmRun(sc, s, cfg, j);
      }
    }
  }
}
