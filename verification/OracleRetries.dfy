/** How calls with retries end, and where a round stops early: read off the script. */
module OracleRetries {
  import opened Bridge
  import opened OracleSpec

  /** The environment after `k` reads. */
  function Ticks(sc: Script, n: Net, k: nat): (m: Net)
    ensures m.pos == n.pos + k
    decreases k
  {
    if k == 0 then n else Ticks(sc, Tick(sc, n), k - 1)
  }

  /** An error that the caller survives. */
  predicate Faulty(turn: Turn) {
    turn.reply != Fine && turn.reply != Crash
  }

  /**
   A read ends with the first call among its attempts that is no error, `j` errors after its
   beginning; it fails exactly if all its attempts are errors.
   */
  lemma {:induction false} ReadEnds(sc: Script, n: Net, attempts: nat) returns (j: nat)
    ensures j <= attempts && (forall i :: n.pos <= i < n.pos + j ==> Faulty(sc(i))) && (j < attempts ==> !Faulty(sc(n.pos + j)))
    ensures j < attempts ==>
            Read(sc, n, attempts) == (if sc(n.pos + j).reply == Fine then Done(()) else Crashed, Ticks(sc, n, j + 1))
    ensures j == attempts ==> Read(sc, n, attempts) == (Failed, Ticks(sc, n, attempts))
    ensures Read(sc, n, attempts).0.Failed? <==> forall i :: n.pos <= i < n.pos + attempts ==> Faulty(sc(i))
    decreases attempts
  {
    if attempts == 0 || !Faulty(sc(n.pos)) {
      j := 0;
    } else {
      var i := ReadEnds(sc, Tick(sc, n), attempts - 1);
      j := i + 1;
    }
  }

  /** The queries of one attempt succeed exactly if all of them do. */
  lemma {:induction false} ReadKindsEnds(sc: Script, n: Net, a: nat, b: nat, kinds: seq<Kind>)
    ensures ReadKinds(sc, n, a, b, kinds).0.Done? <==> forall i :: n.pos <= i < n.pos + |kinds| ==> sc(i).reply == Fine
    decreases |kinds|
  {
    if kinds != [] {
      ReadKindsEnds(sc, Tick(sc, n), a, b, kinds[1..]);
    }
  }

  lemma FetchOnceEnds(sc: Script, n: Net, a: nat, b: nat)
    ensures FetchOnce(sc, n, a, b).0.Done? <==> forall i :: n.pos <= i < n.pos + 5 ==> sc(i).reply == Fine
  {
    ReadKindsEnds(sc, n, a, b, QUERY_ORDER);
  }

  /** The environment after `k` attempts to fetch. */
  function FetchTries(sc: Script, n: Net, a: nat, b: nat, k: nat): Net
    decreases k
  {
    if k == 0 then n else FetchTries(sc, FetchOnce(sc, n, a, b).1, a, b, k - 1)
  }

  /** A fetch ends as the first of its attempts that does not fail, `j` failures after its beginning. */
  lemma {:induction false} FetchEnds(sc: Script, n: Net, a: nat, b: nat, attempts: nat) returns (j: nat)
    ensures j <= attempts && forall i: nat :: i < j ==> FetchOnce(sc, FetchTries(sc, n, a, b, i), a, b).0.Failed?
    ensures j < attempts ==>
            var last := FetchOnce(sc, FetchTries(sc, n, a, b, j), a, b); !last.0.Failed? && Fetch(sc, n, a, b, attempts) == last
    ensures j == attempts ==> Fetch(sc, n, a, b, attempts) == (Failed, FetchTries(sc, n, a, b, attempts))
    decreases attempts
  {
    if attempts == 0 || !FetchOnce(sc, n, a, b).0.Failed? {
      j := 0;
    } else {
      var m := FetchOnce(sc, n, a, b).1;
      var k := FetchEnds(sc, m, a, b, attempts - 1);
      j := k + 1;
      forall i: nat | i < j ensures FetchOnce(sc, FetchTries(sc, n, a, b, i), a, b).0.Failed? {
        if i > 0 {
          assert FetchTries(sc, n, a, b, i) == FetchTries(sc, m, a, b, i - 1);
        }
      }
    }
  }

  /** The environment after `k` attempts to send. */
  function SendTries(sc: Script, n: Net, batch: seq<Event>, k: nat): Net
    decreases k
  {
    if k == 0 then n else SendTries(sc, SendOnce(sc, n, batch).1, batch, k - 1)
  }

  /** The same for sending. */
  lemma {:induction false} SendEnds(sc: Script, n: Net, batch: seq<Event>, attempts: nat) returns (j: nat)
    ensures j <= attempts && forall i: nat :: i < j ==> SendOnce(sc, SendTries(sc, n, batch, i), batch).0.Failed?
    ensures j < attempts ==>
            var last := SendOnce(sc, SendTries(sc, n, batch, j), batch); !last.0.Failed? && Send(sc, n, batch, attempts) == last
    ensures j == attempts ==> Send(sc, n, batch, attempts) == (Failed, SendTries(sc, n, batch, attempts))
    decreases attempts
  {
    if attempts == 0 || !SendOnce(sc, n, batch).0.Failed? {
      j := 0;
    } else {
      var m := SendOnce(sc, n, batch).1;
      var k := SendEnds(sc, m, batch, attempts - 1);
      j := k + 1;
      forall i: nat | i < j ensures SendOnce(sc, SendTries(sc, n, batch, i), batch).0.Failed? {
        if i > 0 {
          assert SendTries(sc, n, batch, i) == SendTries(sc, m, batch, i - 1);
        }
      }
    }
  }

  // ----- where a round stops

  /** The world in which the head was read, if the round gets there. */
  function HeadRead(sc: Script, n: Net, cfg: Config): (Out<()>, Net) {
    Read(sc, Tick(sc, n), cfg.attempts)
  }

  lemma GatherStops(sc: Script, n: Net, cfg: Config, observed: nat, end: nat)
    ensures match Gather(sc, n, cfg, observed, end)
            case Stopped(r) => r.exit in {Error, Died} && r.observed == observed
            case Looked(_, e, _) => e == end
  {
  }

  lemma ActExits(sc: Script, n: Net, cfg: Config, observed: nat, end: nat, batch: seq<Event>)
    ensures var r := Act(sc, n, cfg, observed, end, batch);
            && r.exit in {NoNews, Gap, Sent, Error, Died} && (r.exit in {Error, Died} ==> r.observed == observed)
            && (r.exit in {NoNews, Sent} ==> r.observed == end)
  {
  }

  /** Why a round stops before it scans anything, with the network as it is by then. */
  ghost predicate StopsExactly(sc: Script, n: Net, cfg: Config, observed: nat, r: Report) {
    var m, head := Tick(sc, n), HeadRead(sc, n, cfg);
    var asked := sc(n.pos).reply == Fine && cfg.address in m.world.active && head.0.Done?;
    && (r.exit == Inactive <==> sc(n.pos).reply == Fine && cfg.address !in m.world.active)
    && (r.exit == TooShort <==> asked && head.1.world.head <= CONFIRMATION_DELAY)
    && (r.exit == UpToDate <==> asked && CONFIRMATION_DELAY < head.1.world.head <= observed + CONFIRMATION_DELAY)
    && (r.exit == Inactive ==> r.net == m)
    && (r.exit == TooShort || r.exit == UpToDate ==> r.net == head.1)
    && (r.exit !in {NoNews, Gap, Sent} ==> r.observed == observed)
  }

  /** The exits of a round before it scans anything. Whatever stops it, its height stays. */
  lemma RoundStops(sc: Script, n: Net, cfg: Config, observed: nat)
    ensures StopsExactly(sc, n, cfg, observed, Round(sc, n, cfg, observed))
  {
    var m, head := Tick(sc, n), HeadRead(sc, n, cfg);
    if sc(n.pos).reply == Fine && cfg.address in m.world.active && head.0.Done? && ScanEnd(head.1.world.head, observed).To? {
      var end := ScanEnd(head.1.world.head, observed).end;
      assert LookAround(sc, n, cfg, observed) == Gather(sc, head.1, cfg, observed, end);
      GatherStops(sc, head.1, cfg, observed, end);
      match Gather(sc, head.1, cfg, observed, end)
      case Stopped(_) =>
      case Looked(k, _, events) => ActExits(sc, k, cfg, observed, end, Batch(events, k.world.claim.nonce));
    }
  }

  /** A scan reaches as far as the confirmed head that was read, and no further than its window. */
  lemma ScanReaches(sc: Script, n: Net, cfg: Config, observed: nat)
    requires LookAround(sc, n, cfg, observed).Looked?
    ensures var head, end := HeadRead(sc, n, cfg).1.world.head, LookAround(sc, n, cfg, observed).end;
            && end <= observed + BLOCKS_TO_SEARCH && end + CONFIRMATION_DELAY <= head && observed < end
            && (end == observed + BLOCKS_TO_SEARCH || end + CONFIRMATION_DELAY == head)
    ensures var r := Round(sc, n, cfg, observed);
            r.exit == NoNews || r.exit == Sent ==> r.observed == LookAround(sc, n, cfg, observed).end
  {
  }
}
