/**
 One round of the oracle, its retries and the choice of the start height, as functions of the
 script. `Oracle.EthOracle` computes the same step by step.
 */
module OracleSpec {
  import opened Bridge
  import opened Sorting

  /** How a call with retries ends: with a value, with the last error, or with the process gone. */
  datatype Out<T> = Done(value: T) | Failed | Crashed

  /**
   The validator's Ethereum address and how often a call is attempted. The program attempts
   `MAX_ATTEMPTS` times; the theorems hold for every number.
   */
  datatype Config = Config(address: string, attempts: Attempts)

  type Attempts = k: nat | k > 0 witness 1

  // ----- reads

  /** A plain read repeated until it succeeds, at most `attempts` times. */
  function Read(sc: Script, n: Net, attempts: nat): (Out<()>, Net)
    decreases attempts
  {
    if attempts == 0 then (Failed, n)
    else
      match sc(n.pos).reply
      case Fine => (Done(()), Tick(sc, n))
      case Crash => (Crashed, Tick(sc, n))
      case _ => Read(sc, Tick(sc, n), attempts - 1)
  }

  /** What the node returns for one event kind and the blocks from `a` to `b`, both included. */
  function Query(log: seq<Event>, kind: Kind, a: nat, b: nat): seq<Event> {
    if log == [] then []
    else
      var last := log[|log| - 1];
      Query(log[..|log| - 1], kind, a, b) + if last.kind == kind && a <= last.height <= b then [last] else []
  }

  function ReadKinds(sc: Script, n: Net, a: nat, b: nat, kinds: seq<Kind>): (r: (Out<seq<seq<Event>>>, Net))
    ensures r.0.Done? ==> |r.0.value| == |kinds|
    decreases |kinds|
  {
    if kinds == [] then (Done([]), n)
    else
      var m := Tick(sc, n);
      match sc(n.pos).reply
      case Fine =>
        (match ReadKinds(sc, m, a, b, kinds[1..])
         case (Done(rest), k) => (Done([Query(m.world.log, kinds[0], a, b)] + rest), k)
         case (Failed, k) => (Failed, k)
         case (Crashed, k) => (Crashed, k))
      case Crash => (Crashed, m)
      case _ => (Failed, m)
  }

  const QUERY_ORDER: seq<Kind> := [OldDeposit, Deposit, Withdrawal, Erc20Deployment, ValsetUpdate]

  /** The results are appended in another order than they are asked for. */
  function Assemble(rs: seq<seq<Event>>): seq<Event>
    requires |rs| == 5
  {
    rs[0] + rs[1] + rs[2] + rs[4] + rs[3]
  }

  /** One attempt: nothing of an earlier attempt is kept. */
  function FetchOnce(sc: Script, n: Net, a: nat, b: nat): (Out<seq<Event>>, Net) {
    match ReadKinds(sc, n, a, b, QUERY_ORDER)
    case (Done(rs), m) => (Done(Assemble(rs)), m)
    case (Crashed, m) => (Crashed, m)
    case (Failed, m) => (Failed, m)
  }

  function Fetch(sc: Script, n: Net, a: nat, b: nat, attempts: nat): (Out<seq<Event>>, Net)
    decreases attempts
  {
    if attempts == 0 then (Failed, n)
    else
      match FetchOnce(sc, n, a, b)
      case (Failed, m) => Fetch(sc, m, a, b, attempts - 1)
      case r => r
  }

  // ----- claims

  function Newer(events: seq<Event>, nonce: nat): seq<Event> {
    if events == [] then []
    else (if events[0].nonce > nonce then [events[0]] else []) + Newer(events[1..], nonce)
  }

  predicate NonceOrder(a: Event, b: Event) {
    a.nonce <= b.nonce
  }

  /** One claim: whether the call succeeds, and the world after it. */
  function Post(w: World, e: Event, reply: Reply): (bool, World) {
    var next := e.nonce == w.claim.nonce + 1;
    match reply
    case Fine => (next, if next then Record(w, Own(e)) else w)
    case Lost => (false, if next then Record(w, Own(e)) else w)
    case Dropped => (true, w)
    case _ => (false, w)
  }

  function PostAll(sc: Script, n: Net, todo: seq<Event>): (Out<()>, Net)
    decreases |todo|
  {
    if todo == [] then (Done(()), n)
    else
      var m := Tick(sc, n);
      var (ok, w) := Post(m.world, todo[0], sc(n.pos).reply);
      var k := m.(world := w);
      if ok then PostAll(sc, k, todo[1..])
      else if sc(n.pos).reply == Crash then (Crashed, k)
      else (Failed, k)
  }

  /** One attempt: read the last claim again, post what is newer than it. */
  function SendOnce(sc: Script, n: Net, batch: seq<Event>): (Out<()>, Net) {
    var m := Tick(sc, n);
    match sc(n.pos).reply
    case Fine => PostAll(sc, m, Newer(batch, m.world.claim.nonce))
    case Crash => (Crashed, m)
    case _ => (Failed, m)
  }

  function Send(sc: Script, n: Net, batch: seq<Event>, attempts: nat): (Out<()>, Net)
    decreases attempts
  {
    if attempts == 0 then (Failed, n)
    else
      match SendOnce(sc, n, batch)
      case (Failed, m) => Send(sc, m, batch, attempts - 1)
      case r => r
  }

  // ----- the round

  datatype Exit = Inactive | TooShort | UpToDate | NoNews | Gap | Sent | Error | Died

  datatype Report = Report(exit: Exit, net: Net, observed: nat)

  /** Where the scan of a round ends, given the head it read; None when there is nothing to scan. */
  datatype Scan = Nothing(exit: Exit) | To(end: nat)

  function ScanEnd(head: nat, observed: nat): Scan {
    if head <= CONFIRMATION_DELAY then Nothing(TooShort)
    else
      var latest := head - CONFIRMATION_DELAY;
      if latest <= observed then Nothing(UpToDate)
      else if latest > observed + BLOCKS_TO_SEARCH then To(observed + BLOCKS_TO_SEARCH)
      else To(latest)
  }

  /** The reads of a round: the events of the scanned range and, in `net`, the last claim read after them. */
  datatype Look = Stopped(report: Report) | Looked(net: Net, end: nat, events: seq<Event>)

  function LookAround(sc: Script, n: Net, cfg: Config, observed: nat): Look {
    var m := Tick(sc, n);
    if sc(n.pos).reply != Fine then Stopped(Report(if sc(n.pos).reply == Crash then Died else Error, m, observed))
    else if cfg.address !in m.world.active then Stopped(Report(Inactive, m, observed))
    else
      match Read(sc, m, cfg.attempts)
      case (Failed, k) => Stopped(Report(Error, k, observed))
      case (Crashed, k) => Stopped(Report(Died, k, observed))
      case (Done(_), k) =>
        match ScanEnd(k.world.head, observed)
        case Nothing(exit) => Stopped(Report(exit, k, observed))
        case To(end) => Gather(sc, k, cfg, observed, end)
  }

  function Gather(sc: Script, n: Net, cfg: Config, observed: nat, end: nat): Look {
    match Fetch(sc, n, observed, end, cfg.attempts)
    case (Failed, m) => Stopped(Report(Error, m, observed))
    case (Crashed, m) => Stopped(Report(Died, m, observed))
    case (Done(events), m) =>
      match Read(sc, m, cfg.attempts)
      case (Failed, k) => Stopped(Report(Error, k, observed))
      case (Crashed, k) => Stopped(Report(Died, k, observed))
      case (Done(_), k) => Looked(k, end, events)
  }

  /** The new events of a round, in the order they will be claimed. */
  function Batch(events: seq<Event>, claimed: nat): seq<Event> {
    SortBy(Newer(events, claimed), NonceOrder)
  }

  function Act(sc: Script, n: Net, cfg: Config, observed: nat, end: nat, batch: seq<Event>): Report {
    if batch == [] then Report(NoNews, n, end)
    else if batch[0].nonce != n.world.claim.nonce + 1 then Report(Gap, n, n.world.claim.height)
    else
      match Send(sc, n, batch, cfg.attempts)
      case (Done(_), m) => Report(Sent, m, end)
      case (Failed, m) => Report(Error, m, observed)
      case (Crashed, m) => Report(Died, m, observed)
  }

  function Round(sc: Script, n: Net, cfg: Config, observed: nat): Report {
    match LookAround(sc, n, cfg, observed)
    case Stopped(report) => report
    case Looked(m, end, events) => Act(sc, m, cfg, observed, end, Batch(events, m.world.claim.nonce))
  }

  // ----- runs

  /** The process: down, or between two rounds with the height it has observed. */
  datatype Process = Down | Up(observed: nat)

  datatype State = State(net: Net, process: Process)

  /** A start: the height of the last claim, or the contract's start height if that is 0 or unknown. */
  function Start(sc: Script, n: Net): State {
    var m := Tick(sc, n);
    if sc(n.pos).reply == Crash then State(m, Down)
    else if sc(n.pos).reply == Fine && m.world.claim.height != 0 then Identify(sc, m, m.world.claim.height)
    else
      var k := Tick(sc, m);
      if sc(m.pos).reply == Fine then Identify(sc, k, k.world.start) else State(k, Down)
  }

  /** The last read of a start, for the peggy ID: without an answer the process ends. */
  function Identify(sc: Script, n: Net, height: nat): State {
    State(Tick(sc, n), if sc(n.pos).reply == Fine then Up(height) else Down)
  }

  /** The next round if the process is up, else a start. A round that ends in an error ends the process. */
  function Step(sc: Script, s: State, cfg: Config): State {
    match s.process
    case Down => Start(sc, s.net)
    case Up(observed) =>
      var r := Round(sc, s.net, cfg, observed);
      State(r.net, if r.exit == Error || r.exit == Died then Down else Up(r.observed))
  }

  function Run(sc: Script, s: State, cfg: Config, steps: nat): State
    decreases steps
  {
    if steps == 0 then s else Run(sc, Step(sc, s, cfg), cfg, steps - 1)
  }

  predicate IsGap(sc: Script, s: State, cfg: Config) {
    s.process.Up? && Round(sc, s.net, cfg, s.process.observed).exit == Gap
  }

  /** The last call before the script position of `n` was a claim that is dropped after its success. */
  predicate EndsDropped(sc: Script, n: Net) {
    n.pos > 0 && sc(n.pos - 1).reply == Dropped
  }

  /** A round that ends its sending on a dropped claim. */
  predicate Loses(sc: Script, r: Report) {
    r.exit == Sent && EndsDropped(sc, r.net)
  }

  /** The next step is a round that ends its sending on a dropped claim. */
  predicate StepLoses(sc: Script, s: State, cfg: Config) {
    s.process.Up? && Loses(sc, Round(sc, s.net, cfg, s.process.observed))
  }

  /** None of the next `steps` steps is one. */
  ghost predicate NoLoss(sc: Script, s: State, cfg: Config, steps: nat) {
    forall j: nat :: j < steps ==> !StepLoses(sc, Run(sc, s, cfg, j), cfg)
  }
}
