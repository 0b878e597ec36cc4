/**
 The two chains as the oracle meets them: an Ethereum log that may be reorganised above its
 confirmed part, and the validator's last claim on Injective. The environment moves between any
 two calls of the oracle; a script says how it moves and how each call ends, so a statement about
 every script is a statement about every interleaving.
 */
module Bridge {

  const CONFIRMATION_DELAY: nat := 12
  const BLOCKS_TO_SEARCH: nat := 2000
  const MAX_ATTEMPTS: nat := 10

  datatype Kind = OldDeposit | Deposit | Withdrawal | Erc20Deployment | ValsetUpdate

  /** `payload` stands for every field of the event that the oracle only passes on. */
  datatype Event = Event(kind: Kind, nonce: nat, height: nat, payload: int)

  datatype Claim = Claim(nonce: nat, height: nat)

  /** One change of the last claim: a claim of this oracle that was included, or an advance made elsewhere. */
  datatype Entry = Own(event: Event) | Elsewhere(event: Event)

  /**
   `start` is the bridge contract's start height, `peak` the highest head there ever was, `origin`
   the nonce of the last claim before the first entry of `history`.
   */
  datatype World = World(start: nat, head: nat, peak: nat, log: seq<Event>,
                         origin: nat, claim: Claim, history: seq<Entry>, active: seq<string>)

  /** What the environment may do between two calls. A move that is not possible changes nothing. */
  datatype Move =
    | Fork(head: nat, log: seq<Event>)  // growth and reorganisation alike
    | Advance(nonce: nat)               // the last claim moves without this oracle
    | Rotate(active: seq<string>)       // another active validator set

  /** Named, so that the order of heights is used where it is asked for. */
  predicate InOrder(log: seq<Event>, i: nat, j: nat)
    requires i < |log| && j < |log|
  {
    log[i].height <= log[j].height
  }

  predicate WellFormed(log: seq<Event>, start: nat, head: nat) {
    && (forall i :: 0 <= i < |log| ==> log[i].nonce == i + 1 && start <= log[i].height <= head)
    && (forall i, j {:trigger InOrder(log, i, j)} :: 0 <= i < j < |log| ==> InOrder(log, i, j))
  }

  /** Heights do not go down along the log. */
  lemma HeightsRise(log: seq<Event>, start: nat, head: nat, i: nat, j: nat)
    requires WellFormed(log, start, head) && i <= j < |log|
    ensures log[i].height <= log[j].height
  {
    assert i < j ==> InOrder(log, i, j);
  }

  lemma FrontWellFormed(log: seq<Event>, start: nat, head: nat)
    requires WellFormed(log, start, head) && log != []
    ensures WellFormed(log[..|log| - 1], start, head)
  {
    var front := log[..|log| - 1];
    forall i, j | 0 <= i < j < |front| ensures InOrder(front, i, j) {
      assert InOrder(log, i, j);
    }
  }

  /** Both logs hold the same events with `CONFIRMATION_DELAY` blocks or more below `peak`. */
  predicate Agree(a: seq<Event>, b: seq<Event>, peak: nat) {
    && (forall i :: 0 <= i < |a| && a[i].height + CONFIRMATION_DELAY <= peak ==> i < |b| && b[i] == a[i])
    && (forall i :: 0 <= i < |b| && b[i].height + CONFIRMATION_DELAY <= peak ==> i < |a| && b[i] == a[i])
  }

  predicate Confirmed(w: World, e: Event) {
    1 <= e.nonce <= |w.log| && w.log[e.nonce - 1] == e && e.height + CONFIRMATION_DELAY <= w.peak
  }

  function Apply(w: World, m: Move): World {
    match m
    case Fork(head, log) =>
      if WellFormed(log, w.start, head) && w.peak <= head + CONFIRMATION_DELAY && Agree(w.log, log, w.peak) then
        w.(head := head, peak := if w.peak < head then head else w.peak, log := log)
      else w
    case Advance(nonce) =>
      if w.claim.nonce < nonce <= |w.log| && Confirmed(w, w.log[nonce - 1]) then
        Record(w, Elsewhere(w.log[nonce - 1]))
      else w
    case Rotate(active) => w.(active := active)
  }

  function Record(w: World, entry: Entry): World {
    w.(claim := Claim(entry.event.nonce, entry.event.height), history := w.history + [entry])
  }

  function Elapse(w: World, moves: seq<Move>): World
    decreases |moves|
  {
    if moves == [] then w else Elapse(Apply(w, moves[0]), moves[1..])
  }

  /**
   How a call ends. For a read everything but `Fine` is an error. For a claim: `Fine` includes it
   if it is the next one and is an error otherwise, `Fault` is an error without effect, `Lost` an
   error although the claim was included, `Dropped` a success although it never is included.
   `Crash` ends the process.
   */
  datatype Reply = Fine | Fault | Lost | Dropped | Crash

  datatype Turn = Turn(moves: seq<Move>, reply: Reply)

  type Script = nat -> Turn

  datatype Net = Net(world: World, pos: nat)

  /** The environment's moves before the call at the script's current position, and that call. */
  function Tick(sc: Script, n: Net): Net {
    Net(Elapse(n.world, sc(n.pos).moves), n.pos + 1)
  }

  /** What every world that can come about satisfies. */
  ghost predicate Valid(w: World) {
    && WellFormed(w.log, w.start, w.head)
    && w.head <= w.peak <= w.head + CONFIRMATION_DELAY
    && (if w.claim.nonce == 0 then w.claim.height == 0
        else
          && w.claim.nonce <= |w.log|
          && w.claim.height == w.log[w.claim.nonce - 1].height
          && w.claim.height + CONFIRMATION_DELAY <= w.peak)
    && w.claim.nonce == Before(w, |w.history|)
    && forall i :: 0 <= i < |w.history| ==> EntryOk(w, i)
  }

  /** The last claimed nonce before entry `i` of the history. */
  ghost function Before(w: World, i: nat): nat
    requires i <= |w.history|
  {
    if i == 0 then w.origin else w.history[i - 1].event.nonce
  }

  /**
   A claimed event is in the log, confirmed, with a higher nonce than all before; a claim of this
   oracle continues the last one without a gap.
   */
  ghost predicate EntryOk(w: World, i: nat)
    requires i < |w.history|
  {
    var e := w.history[i].event;
    && Confirmed(w, e)
    && Before(w, i) < e.nonce
    && (w.history[i].Own? ==> e.nonce == Before(w, i) + 1)
  }

  /** `v` can come after `w`: confirmed events stay, claims only go forward. */
  ghost predicate Later(w: World, v: World) {
    && v.start == w.start
    && v.origin == w.origin
    && w.peak <= v.peak
    && Agree(w.log, v.log, w.peak)
    && w.claim.nonce <= v.claim.nonce
    && w.history <= v.history
  }

  lemma LaterTransitive(u: World, v: World, w: World)
    requires Later(u, v) && Later(v, w)
    ensures Later(u, w)
  {
    forall i | 0 <= i < |w.log| && w.log[i].height + CONFIRMATION_DELAY <= u.peak
      ensures i < |u.log| && w.log[i] == u.log[i]
    {
      assert v.log[i] == w.log[i];
    }
    forall i | 0 <= i < |u.log| && u.log[i].height + CONFIRMATION_DELAY <= u.peak
      ensures i < |w.log| && w.log[i] == u.log[i]
    {
      assert v.log[i] == u.log[i];
    }
  }

  lemma ApplyKeeps(w: World, m: Move)
    requires Valid(w)
    ensures Valid(Apply(w, m)) && Later(w, Apply(w, m))
  {
    var v := Apply(w, m);
    if m.Advance? && v != w {
      RecordKeeps(w, Elsewhere(w.log[m.nonce - 1]));
    } else {
      forall i | 0 <= i < |v.history| ensures EntryOk(v, i) {
        assert EntryOk(w, i);
      }
    }
  }

  lemma RecordKeeps(w: World, entry: Entry)
    requires Valid(w) && Confirmed(w, entry.event) && w.claim.nonce < entry.event.nonce
    requires entry.Own? ==> entry.event.nonce == w.claim.nonce + 1
    ensures Valid(Record(w, entry)) && Later(w, Record(w, entry))
  {
    var v := Record(w, entry);
    forall i | 0 <= i < |v.history| ensures EntryOk(v, i) {
      if i < |w.history| {
        assert EntryOk(w, i);
      }
    }
  }

  lemma {:induction false} ElapseKeeps(w: World, moves: seq<Move>)
    requires Valid(w)
    ensures Valid(Elapse(w, moves)) && Later(w, Elapse(w, moves))
    decreases |moves|
  {
    if moves != [] {
      ApplyKeeps(w, moves[0]);
      ElapseKeeps(Apply(w, moves[0]), moves[1..]);
      LaterTransitive(w, Apply(w, moves[0]), Elapse(w, moves));
    }
  }

  /** A confirmed event stays where it is. */
  lemma ConfirmedStays(w: World, v: World, e: Event)
    requires Later(w, v) && Confirmed(w, e)
    ensures Confirmed(v, e)
  {
    assert w.log[e.nonce - 1] == e;
  }
}
