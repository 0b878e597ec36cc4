/** What the reads of a round return, whatever the environment does between them. */
module OracleReads {
  import opened Bridge
  import opened Sorting
  import opened OracleSpec

  /** The claims of this oracle that `v` has and `w` had not are for events of `batch`. */
  ghost predicate OwnOnly(w: World, v: World, batch: seq<Event>) {
    forall i :: |w.history| <= i < |v.history| && v.history[i].Own? ==> v.history[i].event in batch
  }

  /** `m` can come after `n` on the same script, and between them this oracle claims only events of `batch`. */
  ghost predicate After(n: Net, m: Net, batch: seq<Event>) {
    Valid(m.world) && Later(n.world, m.world) && n.pos <= m.pos && OwnOnly(n.world, m.world, batch)
  }

  lemma AfterTransitive(n: Net, m: Net, k: Net, batch: seq<Event>)
    requires After(n, m, batch) && After(m, k, batch)
    ensures After(n, k, batch)
  {
    LaterTransitive(n.world, m.world, k.world);
    forall i | |n.world.history| <= i < |k.world.history| && k.world.history[i].Own?
      ensures k.world.history[i].event in batch
    {
      if i < |m.world.history| {
        assert m.world.history[i] == k.world.history[i];
      }
    }
  }

  lemma AfterMore(n: Net, m: Net, batch: seq<Event>, more: seq<Event>)
    requires After(n, m, batch) && forall e :: e in batch ==> e in more
    ensures After(n, m, more)
  {
  }

  lemma {:induction false} ElapseOwnsNothing(w: World, moves: seq<Move>)
    ensures w.history <= Elapse(w, moves).history && OwnOnly(w, Elapse(w, moves), [])
    decreases |moves|
  {
    if moves != [] {
      var v := Apply(w, moves[0]);
      assert OwnOnly(w, v, []);
      ElapseOwnsNothing(v, moves[1..]);
      var u := Elapse(w, moves);
      forall i | |w.history| <= i < |u.history| ensures u.history[i].Elsewhere? {
        if i < |v.history| {
          assert u.history[i] == v.history[i];
        }
      }
    }
  }

  lemma TickKeeps(sc: Script, n: Net, batch: seq<Event>)
    requires Valid(n.world)
    ensures After(n, Tick(sc, n), batch)
  {
    ElapseKeeps(n.world, sc(n.pos).moves);
    ElapseOwnsNothing(n.world, sc(n.pos).moves);
  }

  // ----- what the reads return

  lemma {:induction false} ReadKeeps(sc: Script, n: Net, attempts: nat)
    requires Valid(n.world)
    ensures After(n, Read(sc, n, attempts).1, [])
    decreases attempts
  {
    if attempts > 0 {
      TickKeeps(sc, n, []);
      if sc(n.pos).reply != Fine && sc(n.pos).reply != Crash {
        ReadKeeps(sc, Tick(sc, n), attempts - 1);
        AfterTransitive(n, Tick(sc, n), Read(sc, n, attempts).1, []);
      }
    }
  }

  /** The number of events below height `h`. */
  function Below(log: seq<Event>, h: nat): (r: nat)
    ensures r <= |log|
  {
    if log == [] || log[|log| - 1].height < h then |log| else Below(log[..|log| - 1], h)
  }

  lemma {:induction false} BelowSplits(log: seq<Event>, start: nat, head: nat, h: nat)
    requires WellFormed(log, start, head)
    ensures forall i :: 0 <= i < |log| ==> (log[i].height < h <==> i < Below(log, h))
  {
    if log != [] {
      var n := |log| - 1;
      FrontWellFormed(log, start, head);
      if log[n].height >= h {
        BelowSplits(log[..n], start, head, h);
        assert forall i :: 0 <= i < n ==> log[..n][i] == log[i];
      } else {
        forall i | 0 <= i < n ensures log[i].height < h {
          assert InOrder(log, i, n);
        }
      }
    }
  }

  /** The events at heights `a` to `b` whose nonce is above `claimed`: one stretch of the log. */
  function Pending(log: seq<Event>, a: nat, b: nat, claimed: nat): seq<Event> {
    var lo := if Below(log, a) < claimed then claimed else Below(log, a);
    var hi := Below(log, b + 1);
    if lo < hi then log[lo..hi] else []
  }

  /** `Pending` without the indices: exactly those events, in log order. */
  lemma PendingMeans(log: seq<Event>, start: nat, head: nat, a: nat, b: nat, claimed: nat)
    requires WellFormed(log, start, head)
    ensures forall e :: e in Pending(log, a, b, claimed) <==> e in log && a <= e.height <= b && e.nonce > claimed
    ensures forall i, j :: 0 <= i < j < |Pending(log, a, b, claimed)| ==>
              Pending(log, a, b, claimed)[i].nonce < Pending(log, a, b, claimed)[j].nonce
  {
    forall e ensures e in Pending(log, a, b, claimed) <==> e in log && a <= e.height <= b && e.nonce > claimed {
      PendingHolds(log, start, head, a, b, claimed, e);
    }
  }

  lemma PendingHolds(log: seq<Event>, start: nat, head: nat, a: nat, b: nat, claimed: nat, e: Event)
    requires WellFormed(log, start, head)
    ensures e in Pending(log, a, b, claimed) <==> e in log && a <= e.height <= b && e.nonce > claimed
  {
    BelowSplits(log, start, head, a);
    BelowSplits(log, start, head, b + 1);
    var lo := if Below(log, a) < claimed then claimed else Below(log, a);
    if e in log && a <= e.height <= b && e.nonce > claimed {
      assert log[e.nonce - 1] == e;
      assert log[lo..Below(log, b + 1)][e.nonce - 1 - lo] == e;
    }
  }

  /** Confirmed heights hold the same events in every later world. */
  lemma BelowStays(w: World, v: World, h: nat)
    requires Valid(w) && Valid(v) && Later(w, v) && h + CONFIRMATION_DELAY <= w.peak + 1
    ensures Below(w.log, h) == Below(v.log, h)
    ensures w.log[..Below(w.log, h)] == v.log[..Below(v.log, h)]
  {
    BelowSplits(w.log, w.start, w.head, h);
    BelowSplits(v.log, v.start, v.head, h);
    var i, j := Below(w.log, h), Below(v.log, h);
    if i > 0 {
      assert w.log[i - 1].height < h && v.log[i - 1] == w.log[i - 1];
    }
    if j > 0 {
      assert v.log[j - 1].height < h && v.log[j - 1] == w.log[j - 1];
    }
  }

  lemma {:induction false} QueryStopsAt(log: seq<Event>, start: nat, head: nat, kind: Kind, a: nat, b: nat)
    requires WellFormed(log, start, head)
    ensures Query(log, kind, a, b) == Query(log[..Below(log, b + 1)], kind, a, b)
  {
    if log != [] && log[|log| - 1].height > b {
      var shorter := log[..|log| - 1];
      FrontWellFormed(log, start, head);
      QueryStopsAt(shorter, start, head, kind, a, b);
      assert log[..Below(log, b + 1)] == shorter[..Below(shorter, b + 1)];
    } else {
      assert log[..|log|] == log;
    }
  }

  /** Logs that agree below height b + 1 answer a query up to b alike. */
  lemma QueryAgrees(log: seq<Event>, head: nat, other: seq<Event>, head': nat, start: nat, kind: Kind, a: nat, b: nat)
    requires WellFormed(log, start, head) && WellFormed(other, start, head')
    requires log[..Below(log, b + 1)] == other[..Below(other, b + 1)]
    ensures Query(log, kind, a, b) == Query(other, kind, a, b)
  {
    QueryStopsAt(log, start, head, kind, a, b);
    QueryStopsAt(other, start, head', kind, a, b);
  }

  lemma QueryStays(w: World, v: World, kind: Kind, a: nat, b: nat)
    requires Valid(w) && Valid(v) && Later(w, v) && b + CONFIRMATION_DELAY <= w.peak
    ensures Query(v.log, kind, a, b) == Query(w.log, kind, a, b)
  {
    BelowStays(w, v, b + 1);
    QueryAgrees(w.log, w.head, v.log, v.head, w.start, kind, a, b);
  }

  lemma QueriesStay(w: World, v: World, a: nat, b: nat, kinds: seq<Kind>, found: seq<seq<Event>>)
    requires Valid(w) && Valid(v) && Later(w, v) && b + CONFIRMATION_DELAY <= w.peak
    requires |found| == |kinds| && forall i :: 0 <= i < |kinds| ==> found[i] == Query(v.log, kinds[i], a, b)
    ensures forall i :: 0 <= i < |kinds| ==> found[i] == Query(w.log, kinds[i], a, b)
  {
    forall i | 0 <= i < |kinds| ensures found[i] == Query(w.log, kinds[i], a, b) {
      QueryStays(w, v, kinds[i], a, b);
    }
  }

  lemma {:induction false} ReadKindsKeeps(sc: Script, n: Net, a: nat, b: nat, kinds: seq<Kind>)
    requires Valid(n.world) && b + CONFIRMATION_DELAY <= n.world.peak
    ensures var r := ReadKinds(sc, n, a, b, kinds);
            && After(n, r.1, [])
            && (r.0.Done? ==> forall i :: 0 <= i < |kinds| ==> r.0.value[i] == Query(n.world.log, kinds[i], a, b))
    decreases |kinds|
  {
    if kinds != [] {
      TickKeeps(sc, n, []);
      var m := Tick(sc, n);
      if sc(n.pos).reply == Fine {
        ReadKindsKeeps(sc, m, a, b, kinds[1..]);
        var r := ReadKinds(sc, n, a, b, kinds);
        AfterTransitive(n, m, r.1, []);
        if r.0.Done? {
          QueriesStay(n.world, m.world, a, b, kinds, r.0.value);
        }
      }
    }
  }

  /** All events of the range, whatever their kind. */
  function InWindow(log: seq<Event>, a: nat, b: nat): seq<Event> {
    if log == [] then []
    else
      var last := log[|log| - 1];
      InWindow(log[..|log| - 1], a, b) + if a <= last.height <= b then [last] else []
  }

  lemma {:induction false} KindsCoverWindow(log: seq<Event>, a: nat, b: nat)
    ensures multiset(InWindow(log, a, b)) ==
            multiset(Query(log, OldDeposit, a, b)) + multiset(Query(log, Deposit, a, b)) +
            multiset(Query(log, Withdrawal, a, b)) + multiset(Query(log, Erc20Deployment, a, b)) +
            multiset(Query(log, ValsetUpdate, a, b))
  {
    if log != [] {
      KindsCoverWindow(log[..|log| - 1], a, b);
    }
  }

  /** How the count below a height changes with the last event of the log. */
  lemma BelowNext(log: seq<Event>, start: nat, head: nat, h: nat)
    requires WellFormed(log, start, head) && log != []
    ensures var n := |log| - 1;
            if log[n].height < h then Below(log, h) == n + 1 && Below(log[..n], h) == n
            else Below(log, h) == Below(log[..n], h)
  {
    var n := |log| - 1;
    if n > 0 && log[n].height < h {
      assert InOrder(log, n - 1, n);
    }
  }

  lemma StretchNext(log: seq<Event>, lo: nat, hi: nat, a: nat, b: nat)
    requires log != [] && lo <= hi <= |log| - 1 && a <= b
    requires log[|log| - 1].height < a ==> lo == |log| - 1
    requires log[|log| - 1].height < b + 1 ==> hi == |log| - 1
    ensures var n := |log| - 1;
            log[..n][lo..hi] + (if a <= log[n].height <= b then [log[n]] else []) ==
            log[if log[n].height < a then n + 1 else lo..if log[n].height < b + 1 then n + 1 else hi]
  {
    assert log[..|log| - 1][lo..hi] == log[lo..hi];
  }

  lemma {:induction false} WindowIsStretch(log: seq<Event>, start: nat, head: nat, a: nat, b: nat)
    requires WellFormed(log, start, head) && a <= b
    ensures Below(log, a) <= Below(log, b + 1)
    ensures InWindow(log, a, b) == log[Below(log, a)..Below(log, b + 1)]
  {
    if log != [] {
      var shorter := log[..|log| - 1];
      FrontWellFormed(log, start, head);
      WindowIsStretch(shorter, start, head, a, b);
      BelowNext(log, start, head, a);
      BelowNext(log, start, head, b + 1);
      StretchNext(log, Below(shorter, a), Below(shorter, b + 1), a, b);
    }
  }

  lemma AssemblePermutes(rs: seq<seq<Event>>)
    requires |rs| == 5
    ensures multiset(Assemble(rs)) ==
            multiset(rs[0]) + multiset(rs[1]) + multiset(rs[2]) + multiset(rs[3]) + multiset(rs[4])
  {
    var front := rs[0] + rs[1] + rs[2];
    assert multiset(front + rs[4] + rs[3]) == multiset(front) + multiset(rs[4]) + multiset(rs[3]);
  }

  lemma AssembleCovers(log: seq<Event>, a: nat, b: nat, rs: seq<seq<Event>>)
    requires |rs| == 5 && forall i :: 0 <= i < 5 ==> rs[i] == Query(log, QUERY_ORDER[i], a, b)
    ensures multiset(Assemble(rs)) == multiset(InWindow(log, a, b))
  {
    AssemblePermutes(rs);
    assert rs[0] == Query(log, OldDeposit, a, b) && rs[1] == Query(log, Deposit, a, b);
    assert rs[2] == Query(log, Withdrawal, a, b) && rs[3] == Query(log, Erc20Deployment, a, b);
    assert rs[4] == Query(log, ValsetUpdate, a, b);
    KindsCoverWindow(log, a, b);
  }

  /** The outcome of a fetch: if it is done it holds exactly the events of the range, each once. */
  ghost predicate Fetched(n: Net, r: (Out<seq<Event>>, Net), a: nat, b: nat) {
    After(n, r.1, []) && (r.0.Done? ==> multiset(r.0.value) == multiset(InWindow(n.world.log, a, b)))
  }

  lemma FetchOnceKeeps(sc: Script, n: Net, a: nat, b: nat)
    requires Valid(n.world) && b + CONFIRMATION_DELAY <= n.world.peak
    ensures Fetched(n, FetchOnce(sc, n, a, b), a, b)
  {
    ReadKindsKeeps(sc, n, a, b, QUERY_ORDER);
    var (out, m) := ReadKinds(sc, n, a, b, QUERY_ORDER);
    if out.Done? {
      AssembleCovers(n.world.log, a, b, out.value);
    }
  }

  lemma RetryKeeps(n: Net, m: Net, r: (Out<seq<Event>>, Net), a: nat, b: nat)
    requires Valid(n.world) && After(n, m, []) && Fetched(m, r, a, b) && b + CONFIRMATION_DELAY <= n.world.peak
    ensures Fetched(n, r, a, b)
  {
    AfterTransitive(n, m, r.1, []);
    WindowStays(n.world, m.world, a, b);
  }

  lemma {:induction false} FetchKeeps(sc: Script, n: Net, a: nat, b: nat, attempts: nat)
    requires Valid(n.world) && b + CONFIRMATION_DELAY <= n.world.peak
    ensures Fetched(n, Fetch(sc, n, a, b, attempts), a, b)
    decreases attempts
  {
    if attempts > 0 {
      FetchOnceKeeps(sc, n, a, b);
      match FetchOnce(sc, n, a, b)
      case (Failed, m) =>
        FetchKeeps(sc, m, a, b, attempts - 1);
        RetryKeeps(n, m, Fetch(sc, m, a, b, attempts - 1), a, b);
      case _ =>
    }
  }

  lemma WindowStays(w: World, v: World, a: nat, b: nat)
    requires Valid(w) && Valid(v) && Later(w, v) && b + CONFIRMATION_DELAY <= w.peak
    ensures multiset(InWindow(w.log, a, b)) == multiset(InWindow(v.log, a, b))
  {
    KindsCoverWindow(w.log, a, b);
    KindsCoverWindow(v.log, a, b);
    QueryStays(w, v, OldDeposit, a, b);
    QueryStays(w, v, Deposit, a, b);
    QueryStays(w, v, Withdrawal, a, b);
    QueryStays(w, v, Erc20Deployment, a, b);
    QueryStays(w, v, ValsetUpdate, a, b);
  }

  // ----- from the fetched events to the batch

  lemma {:induction false} NewerCounts(s: seq<Event>, c: nat, e: Event)
    ensures multiset(Newer(s, c))[e] == if e.nonce > c then multiset(s)[e] else 0
  {
    if s != [] {
      assert s == [s[0]] + s[1..];
      NewerCounts(s[1..], c, e);
    }
  }

  /** Consecutive nonces from `base + 1` on. */
  ghost predicate InARow(batch: seq<Event>, base: nat) {
    forall i :: 0 <= i < |batch| ==> batch[i].nonce == base + 1 + i
  }

  /** Of a row, what is newer than `c` is its rest from there on. */
  function RestOfRow(batch: seq<Event>, base: nat, c: nat): seq<Event> {
    if c <= base then batch else if c - base >= |batch| then [] else batch[c - base..]
  }

  lemma {:induction false} NewerInARow(batch: seq<Event>, base: nat, c: nat)
    requires InARow(batch, base)
    ensures Newer(batch, c) == RestOfRow(batch, base, c)
  {
    if batch != [] {
      NewerInARow(batch[1..], base + 1, c);
      if c <= base {
        assert batch == [batch[0]] + batch[1..];
      }
    }
  }

  lemma NewerRest(batch: seq<Event>, base: nat, c: nat)
    requires InARow(batch, base) && base <= c <= base + |batch|
    ensures Newer(batch, c) == batch[c - base..] && InARow(batch[c - base..], c)
  {
    NewerInARow(batch, base, c);
  }

  lemma NewerOfStretch(log: seq<Event>, lo: nat, hi: nat, c: nat)
    requires lo <= hi <= |log| && forall i :: 0 <= i < |log| ==> log[i].nonce == i + 1
    ensures Newer(log[lo..hi], c) == if c >= hi then [] else log[(if lo < c then c else lo)..hi]
  {
    var batch := log[lo..hi];
    NewerInARow(batch, lo, c);
    if lo < c < hi {
      assert batch[c - lo..] == log[c..hi];
    }
  }

  lemma NewerPermutes(s: seq<Event>, t: seq<Event>, c: nat)
    requires multiset(s) == multiset(t)
    ensures multiset(Newer(s, c)) == multiset(Newer(t, c))
  {
    forall e ensures multiset(Newer(s, c))[e] == multiset(Newer(t, c))[e] {
      NewerCounts(s, c, e);
      NewerCounts(t, c, e);
    }
  }

  lemma PendingOrdered(log: seq<Event>, start: nat, head: nat, a: nat, b: nat, c: nat)
    requires WellFormed(log, start, head)
    ensures Ordered(Pending(log, a, b, c), NonceOrder)
    ensures forall d, e :: d in Pending(log, a, b, c) && e in Pending(log, a, b, c) ==>
              NonceOrder(d, e) && NonceOrder(e, d) ==> d == e
  {
  }

  /**
   Whatever order the fetches return the events in, the batch is the pending stretch of the log as
   it stands when the last claim is read.
   */
  lemma BatchIsPending(n: Net, m: Net, a: nat, b: nat, events: seq<Event>, c: nat)
    requires Valid(n.world) && After(n, m, []) && a <= b && b + CONFIRMATION_DELAY <= n.world.peak
    requires multiset(events) == multiset(InWindow(n.world.log, a, b))
    ensures Batch(events, c) == Pending(m.world.log, a, b, c)
  {
    var log := m.world.log;
    WindowStays(n.world, m.world, a, b);
    WindowIsStretch(log, m.world.start, m.world.head, a, b);
    var stretch := log[Below(log, a)..Below(log, b + 1)];
    NewerOfStretch(log, Below(log, a), Below(log, b + 1), c);
    assert Newer(stretch, c) == Pending(log, a, b, c);
    NewerPermutes(events, stretch, c);
    PendingOrdered(log, m.world.start, m.world.head, a, b, c);
    SortByOrders(Newer(events, c), NonceOrder);
    OrderedUnique(Batch(events, c), Pending(log, a, b, c), NonceOrder);
  }
}
