/**
 The send loop of the Ethereum committer: goroutines that share one account's nonce cache, each
 cache operation, node call and lock operation being one step.
 */
module Committer {
  import opened NonceCache
  import opened Options

  // ----- replies of the node

  datatype Class = InvalidSender | WrongNonce | KnownTransaction | VMException | Other

  datatype Reply = SignFailed | Accepted | Refused(reason: Class)

  predicate Contains(text: string, part: string) {
    part <= text || (text != [] && Contains(text[1..], part))
  }

  /** How the loop reads an error text; the first match counts. */
  function Classify(text: string): Class {
    if Contains(text, "invalid sender") then InvalidSender
    else if Contains(text, "nonce too low") || Contains(text, "nonce too high") ||
            Contains(text, "the tx doesn't have the correct nonce") then WrongNonce
    else if Contains(text, "known transaction") then KnownTransaction
    else if Contains(text, "VM Exception") then VMException
    else Other
  }

  ghost predicate OccursAt(text: string, part: string, i: int) {
    0 <= i <= |text| - |part| && text[i..i + |part|] == part
  }

  /** `part` stands somewhere in `text`. */
  ghost predicate Occurs(text: string, part: string) {
    exists i :: OccursAt(text, part, i)
  }

  lemma {:induction false} ContainsExactly(text: string, part: string)
    ensures Contains(text, part) <==> Occurs(text, part)
  {
    if part <= text {
      assert OccursAt(text, part, 0);
    } else if text != [] {
      ContainsExactly(text[1..], part);
      forall i | OccursAt(text[1..], part, i) ensures OccursAt(text, part, i + 1) {
        assert text[1..][i..i + |part|] == text[i + 1..i + 1 + |part|];
      }
      forall i | OccursAt(text, part, i) ensures OccursAt(text[1..], part, i - 1) {
        assert i > 0 && text[1..][i - 1..i - 1 + |part|] == text[i..i + |part|];
      }
    }
  }

  /** A text around `part` holds it. */
  lemma OccursAround(before: string, part: string, after: string)
    ensures Occurs(before + part + after, part)
  {
    assert OccursAt(before + part + after, part, |before|);
  }

  ghost predicate SenderText(text: string) {
    Occurs(text, "invalid sender")
  }

  ghost predicate NonceText(text: string) {
    && !SenderText(text)
    && (Occurs(text, "nonce too low") || Occurs(text, "nonce too high") || Occurs(text, "the tx doesn't have the correct nonce"))
  }

  ghost predicate KnownText(text: string) {
    !SenderText(text) && !NonceText(text) && Occurs(text, "known transaction")
  }

  ghost predicate ExceptionText(text: string) {
    !SenderText(text) && !NonceText(text) && !KnownText(text) && Occurs(text, "VM Exception")
  }

  ghost predicate OtherText(text: string) {
    !SenderText(text) && !NonceText(text) && !KnownText(text) && !ExceptionText(text)
  }

  /** Which texts fall into which class. */
  lemma ClassifyExactly(text: string)
    ensures Classify(text) == InvalidSender <==> SenderText(text)
    ensures Classify(text) == WrongNonce <==> NonceText(text)
    ensures Classify(text) == KnownTransaction <==> KnownText(text)
    ensures Classify(text) == VMException <==> ExceptionText(text)
    ensures Classify(text) == Other <==> OtherText(text)
  {
    ContainsExactly(text, "invalid sender");
    ContainsExactly(text, "nonce too low");
    ContainsExactly(text, "nonce too high");
    ContainsExactly(text, "the tx doesn't have the correct nonce");
    ContainsExactly(text, "known transaction");
    ContainsExactly(text, "VM Exception");
  }

  // ----- the steps

  datatype Result = Ok(nonce: int) | Err

  /** Where a goroutine is in SendTx; all but Outside and Returned are inside the guard. */
  datatype Pc =
    | Outside
    | Locked
    | Ready(nonce: int, resynced: bool)
    | Replied(nonce: int, resynced: bool, reply: Reply)
    | Resyncing
    | Synced
    | Leaving(result: Result)
    | Returned(result: Result)

  /** What the outside world sees: sends, accepted sends, and resyncs that got an answer. */
  datatype Mark = Sent(nonce: int) | Success(nonce: int) | Resync(nonce: int)

  datatype State = State(cache: int, guard: Option<nat>, pcs: seq<Pc>, trace: seq<Mark>)

  /** What the step needs from outside: the node's reply to a send, or to a request for the pending nonce. */
  datatype Input = Input(reply: Reply, pending: Option<nat>)

  function Goto(s: State, t: nat, pc: Pc): State
    requires t < |s.pcs|
  {
    s.(pcs := s.pcs[t := pc])
  }

  /** The next step of goroutine `t`; a goroutine that waits for the guard stays where it is. */
  function Step(s: State, t: nat, input: Input): State
    requires t < |s.pcs|
  {
    match s.pcs[t]
    case Outside => if s.guard.None? then Goto(s, t, Locked).(guard := Some(t)) else s
    case Locked => Goto(s, t, Ready(s.cache, false))
    case Ready(n, u) =>
      var next := Goto(s, t, Replied(n, u, input.reply));
      (match input.reply
       case SignFailed => next
       case Accepted => next.(trace := s.trace + [Sent(n), Success(n)])
       case Refused(_) => next.(trace := s.trace + [Sent(n)]))
    case Replied(n, u, reply) => React(s, t, n, u, reply)
    case Resyncing =>
      if input.pending.Some? then
        Goto(s, t, Synced).(cache := input.pending.value, trace := s.trace + [Resync(input.pending.value)])
      else Goto(s, t, Synced)
    case Synced => Goto(s, t, Ready(s.cache, true))
    case Leaving(r) => Goto(s, t, Returned(r)).(guard := None)
    case Returned(_) => Goto(s, t, Outside)
  }

  /** What the loop body does with a reply. After "known transaction" the nonce in use stays the same. */
  function React(s: State, t: nat, n: int, u: bool, reply: Reply): State
    requires t < |s.pcs|
  {
    match reply
    case SignFailed => Goto(s, t, Leaving(Err))
    case Accepted => Goto(s, t, Leaving(Ok(n))).(cache := s.cache + 1)
    case Refused(reason) =>
      match reason
      case InvalidSender => Goto(s, t, Leaving(Err)).(cache := s.cache + 1)
      case WrongNonce => Goto(s, t, if u then Leaving(Err) else Resyncing)
      case KnownTransaction => Goto(s, t, Ready(n, u)).(cache := s.cache + 1)
      case VMException => Goto(s, t, Leaving(Err)).(cache := s.cache + 1)
      case Other => Goto(s, t, Leaving(Err))
  }

  datatype Turn = Turn(t: nat, input: Input)

  /** A run under any schedule; a turn of a goroutine that does not exist is skipped. */
  function Run(s: State, turns: seq<Turn>): (r: State)
    ensures |r.pcs| == |s.pcs|
    decreases |turns|
  {
    if turns == [] then s
    else Run(if turns[0].t < |s.pcs| then Step(s, turns[0].t, turns[0].input) else s, turns[1..])
  }

  ghost predicate Initial(s: State) {
    s.guard.None? && s.trace == [] && forall t :: 0 <= t < |s.pcs| ==> s.pcs[t] == Outside
  }

  // ----- safety in every interleaving

  predicate Inside(pc: Pc) {
    !pc.Outside? && !pc.Returned?
  }

  /** The goroutine in the guard, and no other, is inside. */
  ghost predicate Exclusive(s: State) {
    && (s.guard.Some? ==> s.guard.value < |s.pcs|)
    && forall t :: 0 <= t < |s.pcs| ==> (Inside(s.pcs[t]) <==> s.guard == Some(t))
  }

  /** No nonce in use is above the cache. */
  ghost predicate CacheCovers(s: State) {
    forall t :: 0 <= t < |s.pcs| ==>
      match s.pcs[t]
      case Ready(n, _) => n <= s.cache
      case Replied(n, _, _) => n <= s.cache
      case _ => true
  }

  ghost predicate NoResync(trace: seq<Mark>, i: int, j: int) {
    forall k :: 0 <= k < |trace| && i < k < j ==> !trace[k].Resync?
  }

  /** Between two resyncs accepted nonces strictly increase. */
  ghost predicate Increasing(trace: seq<Mark>) {
    forall i, j :: 0 <= i < j < |trace| && trace[i].Success? && trace[j].Success? && NoResync(trace, i, j) ==>
      trace[i].nonce < trace[j].nonce
  }

  /** Accepted nonces since the last resync are below `limit`. */
  ghost predicate RecentBelow(trace: seq<Mark>, limit: int) {
    forall i :: 0 <= i < |trace| && trace[i].Success? && NoResync(trace, i, |trace|) ==> trace[i].nonce < limit
  }

  /** The nonce the next accepted send cannot be below: the one in use, or else the cache. */
  ghost function NextNonce(s: State): int
    requires Exclusive(s)
  {
    if s.guard.None? then s.cache
    else
      match s.pcs[s.guard.value]
      case Ready(n, _) => n
      case Replied(n, _, Accepted) => n + 1
      case Replied(n, _, _) => n
      case _ => s.cache
  }

  ghost predicate Inv(s: State) {
    Exclusive(s) && CacheCovers(s) && Increasing(s.trace) && RecentBelow(s.trace, NextNonce(s))
  }

  lemma SentKeeps(trace: seq<Mark>, n: int, limit: int)
    requires Increasing(trace) && RecentBelow(trace, limit)
    ensures Increasing(trace + [Sent(n)]) && RecentBelow(trace + [Sent(n)], limit)
  {
    var longer := trace + [Sent(n)];
    forall i, j | 0 <= i < j < |longer| && longer[i].Success? && longer[j].Success? && NoResync(longer, i, j)
      ensures longer[i].nonce < longer[j].nonce
    {
      assert forall k :: 0 <= k < |trace| && i < k < j ==> trace[k] == longer[k];
      assert NoResync(trace, i, j);
    }
    forall i | 0 <= i < |longer| && longer[i].Success? && NoResync(longer, i, |longer|) ensures longer[i].nonce < limit {
      assert forall k :: 0 <= k < |trace| && i < k ==> trace[k] == longer[k];
      assert NoResync(trace, i, |trace|);
    }
  }

  lemma SuccessKeeps(trace: seq<Mark>, n: int)
    requires Increasing(trace) && RecentBelow(trace, n)
    ensures Increasing(trace + [Sent(n), Success(n)]) && RecentBelow(trace + [Sent(n), Success(n)], n + 1)
  {
    var longer := trace + [Sent(n), Success(n)];
    forall i, j | 0 <= i < j < |longer| && longer[i].Success? && longer[j].Success? && NoResync(longer, i, j)
      ensures longer[i].nonce < longer[j].nonce
    {
      assert forall k :: 0 <= k < |trace| && i < k < j ==> trace[k] == longer[k];
      assert NoResync(trace, i, if j < |trace| then j else |trace|);
    }
    forall i | 0 <= i < |longer| && longer[i].Success? && NoResync(longer, i, |longer|) ensures longer[i].nonce < n + 1 {
      assert forall k :: 0 <= k < |trace| && i < k ==> trace[k] == longer[k];
      assert i < |trace| ==> NoResync(trace, i, |trace|);
    }
  }

  lemma ResyncKeeps(trace: seq<Mark>, n: int)
    requires Increasing(trace)
    ensures Increasing(trace + [Resync(n)]) && RecentBelow(trace + [Resync(n)], n)
  {
    var longer := trace + [Resync(n)];
    forall i, j | 0 <= i < j < |longer| && longer[i].Success? && longer[j].Success? && NoResync(longer, i, j)
      ensures longer[i].nonce < longer[j].nonce
    {
      assert forall k :: 0 <= k < |trace| && i < k < j ==> trace[k] == longer[k];
      assert NoResync(trace, i, j);
    }
    assert longer[|trace|].Resync?;
  }

  lemma StepExclusive(s: State, t: nat, input: Input)
    requires Exclusive(s) && CacheCovers(s) && t < |s.pcs|
    ensures Exclusive(Step(s, t, input)) && CacheCovers(Step(s, t, input)) && |Step(s, t, input).pcs| == |s.pcs|
  {
  }

  lemma StepIncreasing(s: State, t: nat, input: Input)
    requires Inv(s) && t < |s.pcs| && Exclusive(Step(s, t, input))
    ensures Increasing(Step(s, t, input).trace) && RecentBelow(Step(s, t, input).trace, NextNonce(Step(s, t, input)))
  {
    match s.pcs[t]
    case Ready(n, u) =>
      if input.reply.Accepted? {
        SuccessKeeps(s.trace, n);
      } else if input.reply.Refused? {
        SentKeeps(s.trace, n, n);
      }
    case Resyncing =>
      if input.pending.Some? {
        ResyncKeeps(s.trace, input.pending.value);
      }
    case _ =>
  }

  lemma StepKeeps(s: State, t: nat, input: Input)
    requires Inv(s) && t < |s.pcs|
    ensures Inv(Step(s, t, input)) && |Step(s, t, input).pcs| == |s.pcs|
  {
    StepExclusive(s, t, input);
    StepIncreasing(s, t, input);
  }

  lemma {:induction false} RunKeeps(s: State, turns: seq<Turn>)
    requires Inv(s)
    ensures Inv(Run(s, turns))
    decreases |turns|
  {
    if turns != [] {
      if turns[0].t < |s.pcs| {
        StepKeeps(s, turns[0].t, turns[0].input);
        RunKeeps(Step(s, turns[0].t, turns[0].input), turns[1..]);
      } else {
        RunKeeps(s, turns[1..]);
      }
    }
  }

  /**
   In every interleaving of any number of SendTx calls, for any replies of the node: one goroutine
   at a time is in the guard, the cache is never below the nonce in use, and accepted nonces
   strictly increase between two resyncs.
   */
  lemma SendsIncrease(s: State, turns: seq<Turn>)
    requires Initial(s)
    ensures var r := Run(s, turns);
            Exclusive(r) && CacheCovers(r) && Increasing(r.trace)
  {
    RunKeeps(s, turns);
  }

  // ----- "known transaction"

  function Repeat<T>(x: T, k: nat): (r: seq<T>)
    ensures |r| == k && forall i :: 0 <= i < k ==> r[i] == x
  {
    seq(k, _ => x)
  }

  const KNOWN := Input(Refused(KnownTransaction), None)

  /**
   The comment in the source says that this reply skips one nonce. It does not: however often the
   node repeats it, the same nonce is sent again, while the cache moves on by one each time; no
   number of repeats ends the loop.
   */
  lemma {:induction false} KnownRepeats(s: State, t: nat, k: nat)
    requires t < |s.pcs| && s.pcs[t].Ready?
    ensures Run(s, Repeat(Turn(t, KNOWN), 2 * k)) ==
            s.(cache := s.cache + k, trace := s.trace + Repeat(Sent(s.pcs[t].nonce), k))
    decreases k
  {
    var turns := Repeat(Turn(t, KNOWN), 2 * k);
    if k == 0 {
      assert s.trace + Repeat(Sent(s.pcs[t].nonce), 0) == s.trace;
    } else {
      var sent := Sent(s.pcs[t].nonce);
      var next := s.(cache := s.cache + 1, trace := s.trace + [sent]);
      assert Step(Step(s, t, KNOWN), t, KNOWN) == next by {
        assert s.pcs[t := Replied(s.pcs[t].nonce, s.pcs[t].resynced, KNOWN.reply)][t := s.pcs[t]] == s.pcs;
      }
      assert turns[1..][1..] == Repeat(Turn(t, KNOWN), 2 * (k - 1));
      assert Run(s, turns) == Run(next, turns[1..][1..]);
      KnownRepeats(next, t, k - 1);
      assert s.trace + [sent] + Repeat(sent, k - 1) == s.trace + Repeat(sent, k);
    }
  }

  /** After `k` such replies and an acceptance the cache is `k` above the next nonce. */
  lemma KnownDrifts(s: State, t: nat, k: nat, input: Input)
    requires t < |s.pcs| && s.pcs[t] == Ready(s.cache, false)
    ensures var r := Run(s, Repeat(Turn(t, KNOWN), 2 * k));
            var done := Step(Step(r, t, input.(reply := Accepted)), t, input);
            done.pcs[t] == Leaving(Ok(s.cache)) && done.cache == s.cache + 1 + k
  {
    KnownRepeats(s, t, k);
  }

  // ----- a node that accepts its pending nonce only

  /** `sends` counts each goroutine's sends in its current or last call; `settled`: some call has returned. */
  datatype Honest = Honest(s: State, pending: nat, sends: seq<nat>, settled: bool)

  /** A step against a node that takes its pending nonce, reports a nonce error otherwise, and answers resyncs. */
  function HonestStep(h: Honest, t: nat): Honest
    requires t < |h.s.pcs| == |h.sends|
  {
    var pc := h.s.pcs[t];
    var taken := pc.Ready? && pc.nonce == h.pending;
    var input := Input(if taken then Accepted else Refused(WrongNonce), Some(h.pending));
    Honest(
      Step(h.s, t, input),
      if taken then h.pending + 1 else h.pending,
      h.sends[t := if pc.Outside? then 0 else if pc.Ready? then h.sends[t] + 1 else h.sends[t]],
      h.settled || pc.Leaving?)
  }

  function HonestRun(h: Honest, schedule: seq<nat>): Honest
    requires |h.s.pcs| == |h.sends|
    decreases |schedule|
  {
    if schedule == [] then h
    else HonestRun(if schedule[0] < |h.sends| then HonestStep(h, schedule[0]) else h, schedule[1..])
  }

  ghost predicate HonestPc(h: Honest, t: nat)
    requires t < |h.s.pcs| == |h.sends|
  {
    var k, cache := h.sends[t], h.s.cache;
    match h.s.pcs[t]
    case Outside => true
    case Locked => k == 0 && (h.settled ==> cache == h.pending)
    case Ready(n, u) => n == cache && k == (if u then 1 else 0) && (u || h.settled ==> n == h.pending) && (u ==> !h.settled)
    case Replied(n, u, Accepted) => n == cache && h.pending == n + 1 && 1 <= k <= 2 && (h.settled ==> k == 1)
    case Replied(n, u, reply) => !u && reply == Refused(WrongNonce) && k == 1 && !h.settled
    case Resyncing => k == 1 && !h.settled
    case Synced => k == 1 && cache == h.pending && !h.settled
    case Leaving(r) => r.Ok? && cache == h.pending && 1 <= k <= 2 && (h.settled ==> k == 1)
    case Returned(r) => r.Ok? && 1 <= k <= 2
  }

  ghost predicate HonestInv(h: Honest) {
    && |h.s.pcs| == |h.sends|
    && Exclusive(h.s)
    && (forall t :: 0 <= t < |h.sends| ==> HonestPc(h, t))
    && (h.settled && h.s.guard.None? ==> h.s.cache == h.pending)
  }

  lemma HonestStepKeeps(h: Honest, t: nat)
    requires HonestInv(h) && t < |h.sends|
    ensures HonestInv(HonestStep(h, t))
  {
    var g := HonestStep(h, t);
    assert HonestPc(h, t);
    assert Exclusive(g.s);
    forall i | 0 <= i < |h.sends| ensures HonestPc(g, i) {
      assert HonestPc(h, i);
      if i != t {
        assert g.s.pcs[i] == h.s.pcs[i];
        if Inside(h.s.pcs[i]) {
          assert !Inside(h.s.pcs[t]);
        }
      }
    }
  }

  lemma {:induction false} HonestRunKeeps(h: Honest, schedule: seq<nat>)
    requires HonestInv(h)
    ensures HonestInv(HonestRun(h, schedule))
    decreases |schedule|
  {
    if schedule != [] {
      if schedule[0] < |h.sends| {
        HonestStepKeeps(h, schedule[0]);
        HonestRunKeeps(HonestStep(h, schedule[0]), schedule[1..]);
      } else {
        HonestRunKeeps(h, schedule[1..]);
      }
    }
  }

  /**
   Whatever the cache holds at first, in every interleaving against such a node each SendTx call
   that returns has succeeded with at most two sends, and whenever the guard is free after a first
   return the cache is the pending nonce.
   */
  lemma HonestCallsSucceed(h: Honest, schedule: seq<nat>)
    requires Initial(h.s) && |h.s.pcs| == |h.sends| && !h.settled
    ensures var g := HonestRun(h, schedule);
            && |g.s.pcs| == |g.sends|
            && (forall t :: 0 <= t < |g.sends| && g.s.pcs[t].Returned? ==> g.s.pcs[t].result.Ok? && g.sends[t] <= 2)
            && (g.settled && g.s.guard.None? ==> g.s.cache == g.pending)
  {
    HonestRunKeeps(h, schedule);
    var g := HonestRun(h, schedule);
    forall t | 0 <= t < |g.sends| && g.s.pcs[t].Returned? ensures g.s.pcs[t].result.Ok? && g.sends[t] <= 2 {
      assert HonestPc(g, t);
    }
  }

  /** The holder's steps left until it has returned. */
  function StepsLeft(pc: Pc): nat {
    match pc
    case Locked => 8
    case Ready(_, u) => if u then 3 else 7
    case Replied(_, u, _) => if u then 2 else 6
    case Resyncing => 5
    case Synced => 4
    case Leaving(_) => 1
    case _ => 0
  }

  /** The call in the guard comes nearer to its end with each of its steps. */
  lemma HonestProgress(h: Honest, t: nat)
    requires HonestInv(h) && h.s.guard == Some(t)
    ensures var g := HonestStep(h, t);
            StepsLeft(g.s.pcs[t]) < StepsLeft(h.s.pcs[t]) && (StepsLeft(g.s.pcs[t]) > 0 ==> g.s.guard == Some(t))
  {
    assert HonestPc(h, t);
  }

  /** Others do not disturb it. */
  lemma HonestOthersWait(h: Honest, t: nat, other: nat)
    requires HonestInv(h) && h.s.guard == Some(t) && other < |h.sends| && other != t
    ensures var g := HonestStep(h, other);
            && g.s.pcs[t] == h.s.pcs[t] && g.s.cache == h.s.cache && g.pending == h.pending && g.s.guard == h.s.guard
            && g.sends[t] == h.sends[t]
  {
    assert !Inside(h.s.pcs[other]);
  }

  /** How often goroutine `t` takes a turn. */
  function Turns(schedule: seq<nat>, t: nat): nat {
    if schedule == [] then 0 else (if schedule[0] == t then 1 else 0) + Turns(schedule[1..], t)
  }

  lemma HonestRunFirst(h: Honest, schedule: seq<nat>, k: nat)
    requires |h.s.pcs| == |h.sends| && 0 < k <= |schedule|
    ensures var g := if schedule[0] < |h.sends| then HonestStep(h, schedule[0]) else h;
            |g.s.pcs| == |g.sends| && HonestRun(h, schedule[..k]) == HonestRun(g, schedule[1..][..k - 1])
  {
    assert schedule[..k][1..] == schedule[1..][..k - 1];
  }

  /**
   The call in the guard returns: whatever the others do, once it has taken its remaining turns
   (never more than eight) there was a moment at which it had returned with success and at most two
   sends.
   */
  lemma {:induction false} HonestReturns(h: Honest, schedule: seq<nat>, t: nat) returns (k: nat)
    requires HonestInv(h) && h.s.guard == Some(t) && Turns(schedule, t) >= StepsLeft(h.s.pcs[t])
    ensures StepsLeft(h.s.pcs[t]) <= 8 && k <= |schedule|
    ensures var g := HonestRun(h, schedule[..k]);
            |g.s.pcs| == |g.sends| == |h.sends| && g.s.pcs[t].Returned? && g.s.pcs[t].result.Ok? && g.sends[t] <= 2
    decreases |schedule|
  {
    assert HonestPc(h, t);
    var i := schedule[0];
    var g := if i < |h.sends| then HonestStep(h, i) else h;
    if i < |h.sends| {
      HonestStepKeeps(h, i);
    }
    assert HonestPc(g, t);
    if i == t {
      HonestProgress(h, t);
    } else if i < |h.sends| {
      HonestOthersWait(h, t, i);
    }
    if StepsLeft(g.s.pcs[t]) == 0 {
      k := 1;
      HonestRunFirst(h, schedule, 1);
    } else {
      var j := HonestReturns(g, schedule[1..], t);
      k := j + 1;
      HonestRunFirst(h, schedule, k);
    }
  }

  /**
   From any content of the cache and after any interleaving, a call that holds the guard returns with
   success and at most two sends once it has taken eight more turns, whatever the others do.
   */
  lemma HonestCallsReturn(h: Honest, past: seq<nat>, schedule: seq<nat>, t: nat) returns (k: nat)
    requires Initial(h.s) && |h.s.pcs| == |h.sends| && !h.settled
    requires HonestRun(h, past).s.guard == Some(t) && Turns(schedule, t) >= 8
    ensures k <= |schedule| && HonestInv(HonestRun(h, past))
    ensures var g := HonestRun(HonestRun(h, past), schedule[..k]);
            |g.s.pcs| == |g.sends| && t < |g.sends| && g.s.pcs[t].Returned? && g.s.pcs[t].result.Ok? && g.sends[t] <= 2
  {
    HonestRunKeeps(h, past);
    k := HonestReturns(HonestRun(h, past), schedule, t);
  }

  // ----- the loop as it runs

  datatype Answer = NotSigned | Taken | Failure(text: string)

  /** The node's answer to a send, and to the request for the pending nonce should it follow. */
  datatype NodeTurn = NodeTurn(answer: Answer, pending: Option<nat>)

  function Heard(answer: Answer): Reply {
    match answer
    case NotSigned => SignFailed
    case Taken => Accepted
    case Failure(text) => Refused(Classify(text))
  }

  /** The turns that goroutine `t` takes from the top of the loop while the node answers as in `node`. */
  function LoopTurns(t: nat, resynced: bool, node: seq<NodeTurn>): seq<Turn>
    decreases |node|
  {
    if node == [] then []
    else
      var input := Input(Heard(node[0].answer), node[0].pending);
      var sendAndReact := [Turn(t, input), Turn(t, input)];
      match input.reply
      case Refused(KnownTransaction) => sendAndReact + LoopTurns(t, resynced, node[1..])
      case Refused(WrongNonce) =>
        if resynced then sendAndReact
        else sendAndReact + [Turn(t, input), Turn(t, input)] + LoopTurns(t, true, node[1..])
      case _ => sendAndReact
  }

  lemma {:induction false} RunAppends(s: State, a: seq<Turn>, b: seq<Turn>)
    ensures Run(s, a + b) == Run(Run(s, a), b)
    decreases |a|
  {
    if a == [] {
      assert a + b == b;
    } else {
      assert (a + b)[1..] == a[1..] + b;
      RunAppends(if a[0].t < |s.pcs| then Step(s, a[0].t, a[0].input) else s, a[1..], b);
    }
  }

  lemma RunTwo(s: State, t: nat, input: Input)
    requires t < |s.pcs|
    ensures Run(s, [Turn(t, input), Turn(t, input)]) == Step(Step(s, t, input), t, input)
  {
    assert [Turn(t, input), Turn(t, input)][1..] == [Turn(t, input)];
    assert [Turn(t, input)][1..] == [];
    assert Run(Step(s, t, input), [Turn(t, input)]) == Step(Step(s, t, input), t, input);
  }

  /** What one pass of the loop body comes to: the call returns, or it goes round again. */
  datatype Verdict = Return(result: Result) | Again(nonce: int, resynced: bool)

  /** One pass as it changes the cache. */
  function Pass(cache: int, nonce: int, resynced: bool, reply: Reply, pending: Option<nat>): (Verdict, int) {
    match reply
    case SignFailed => (Return(Err), cache)
    case Accepted => (Return(Ok(nonce)), cache + 1)
    case Refused(reason) =>
      match reason
      case InvalidSender => (Return(Err), cache + 1)
      case WrongNonce =>
        if resynced then (Return(Err), cache)
        else
          var current := if pending.Some? then pending.value else cache;
          (Again(current, true), current)
      case KnownTransaction => (Again(nonce, resynced), cache + 1)
      case VMException => (Return(Err), cache + 1)
      case Other => (Return(Err), cache)
  }

  /** The state after the steps of one pass: two, or four when it resyncs. */
  function PassSteps(s: State, t: nat, input: Input): State
    requires t < |s.pcs| && s.pcs[t].Ready?
  {
    var two := Step(Step(s, t, input), t, input);
    if two.pcs[t].Resyncing? then Step(Step(two, t, input), t, input) else two
  }

  lemma PassIsSteps(s: State, t: nat, input: Input)
    requires t < |s.pcs| && s.pcs[t].Ready?
    ensures var r := PassSteps(s, t, input);
            var (verdict, cache) := Pass(s.cache, s.pcs[t].nonce, s.pcs[t].resynced, input.reply, input.pending);
            && |r.pcs| == |s.pcs| && r.cache == cache
            && r.pcs[t] == match verdict
                           case Return(result) => Leaving(result)
                           case Again(n, u) => Ready(n, u)
  {
  }

  /** The turns of the loop are its passes, one after the other. */
  lemma {:induction false} LoopPass(s: State, t: nat, node: seq<NodeTurn>, input: Input)
    requires t < |s.pcs| && s.pcs[t].Ready? && node != []
    requires input == Input(Heard(node[0].answer), node[0].pending)
    ensures var r := PassSteps(s, t, input);
            Run(s, LoopTurns(t, s.pcs[t].resynced, node)) ==
            if r.pcs[t].Ready? then Run(r, LoopTurns(t, r.pcs[t].resynced, node[1..])) else r
  {
    var u := s.pcs[t].resynced;
    var pair := [Turn(t, input), Turn(t, input)];
    var two := Step(Step(s, t, input), t, input);
    RunTwo(s, t, input);
    match input.reply
    case Refused(KnownTransaction) =>
      RunAppends(s, pair, LoopTurns(t, u, node[1..]));
    case Refused(WrongNonce) =>
      if !u {
        RunTwo(two, t, input);
        RunAppends(s, pair + pair, LoopTurns(t, true, node[1..]));
        RunAppends(s, pair, pair);
      }
    case _ =>
  }

  // ----- what the node's answers lead to

  /** The passes of the loop one after the other: the result if it returns, and the cache. */
  function Loop(cache: int, nonce: int, resynced: bool, node: seq<NodeTurn>): (Option<Result>, int)
    decreases |node|
  {
    if node == [] then (None, cache)
    else
      match Pass(cache, nonce, resynced, Heard(node[0].answer), node[0].pending)
      case (Return(result), c) => (Some(result), c)
      case (Again(n, u), c) => Loop(c, n, u, node[1..])
  }

  /** What a single answer that ends the call leads to, by its text; `c` is the cache before. */
  ghost predicate EndsCall(answer: Answer, c: int, out: (Option<Result>, int)) {
    && (answer == Taken ==> out == (Some(Ok(c)), c + 1))
    && (answer == NotSigned ==> out == (Some(Err), c))
    && (answer.Failure? && SenderText(answer.text) ==> out == (Some(Err), c + 1))
    && (answer.Failure? && ExceptionText(answer.text) ==> out == (Some(Err), c + 1))
    && (answer.Failure? && OtherText(answer.text) ==> out == (Some(Err), c))
  }

  /**
   What an error about the nonce leads to, by the answer that follows it: the pending nonce `k` is
   sent, or the cached one if the node does not tell; a second such error ends the call.
   */
  ghost predicate AfterNonceError(node: seq<NodeTurn>, c: int, out: (Option<Result>, int))
    requires |node| >= 2
  {
    var k := if node[0].pending.Some? then node[0].pending.value else c;
    && (node[1].answer == Taken ==> out == (Some(Ok(k)), k + 1))
    && (node[1].answer.Failure? && NonceText(node[1].answer.text) ==> out == (Some(Err), k))
  }

  ghost predicate KnownTurn(turn: NodeTurn) {
    turn.answer.Failure? && KnownText(turn.answer.text)
  }

  /** SendTx by the texts of the node's answers; `c` is the cache before. */
  ghost predicate AnsweredBy(node: seq<NodeTurn>, c: int, out: (Option<Result>, int)) {
    && (node == [] ==> out == (None, c))
    && (node != [] ==> EndsCall(node[0].answer, c, out))
    && (|node| >= 2 && node[0].answer.Failure? && NonceText(node[0].answer.text) ==> AfterNonceError(node, c, out))
    && ((forall i :: 0 <= i < |node| ==> KnownTurn(node[i])) ==> out == (None, c + |node|))
    && (forall j :: 0 <= j < |node| && node[j].answer == Taken && (forall i :: 0 <= i < j ==> KnownTurn(node[i])) ==>
          out == (Some(Ok(c)), c + j + 1))
  }

  lemma FirstAnswer(node: seq<NodeTurn>, c: int)
    requires node != []
    ensures EndsCall(node[0].answer, c, Loop(c, c, false, node))
  {
    if node[0].answer.Failure? {
      ClassifyExactly(node[0].answer.text);
    }
  }

  lemma NonceErrorAnswer(node: seq<NodeTurn>, c: int)
    requires |node| >= 2 && node[0].answer.Failure? && NonceText(node[0].answer.text)
    ensures AfterNonceError(node, c, Loop(c, c, false, node))
  {
    var k := if node[0].pending.Some? then node[0].pending.value else c;
    ClassifyExactly(node[0].answer.text);
    assert Loop(c, c, false, node) == Loop(k, k, true, node[1..]);
    if node[1].answer.Failure? {
      ClassifyExactly(node[1].answer.text);
    }
  }

  lemma KnownAnswer(node: seq<NodeTurn>, c: int, n: int, u: bool)
    requires node != [] && KnownTurn(node[0])
    ensures Loop(c, n, u, node) == Loop(c + 1, n, u, node[1..])
  {
    ClassifyExactly(node[0].answer.text);
  }

  /** "known transaction" answers keep the nonce and raise the cache, one by one. */
  lemma {:induction false} KnownAnswers(node: seq<NodeTurn>, c: int, n: int, u: bool, j: nat)
    requires j <= |node| && forall i {:trigger KnownTurn(node[i])} :: 0 <= i < j ==> KnownTurn(node[i])
    ensures Loop(c, n, u, node) == Loop(c + j, n, u, node[j..])
    decreases j
  {
    if j > 0 {
      KnownAnswers(node, c, n, u, j - 1);
      assert KnownTurn(node[j - 1]) && node[j - 1..][0] == node[j - 1];
      KnownAnswer(node[j - 1..], c + j - 1, n, u);
      assert node[j - 1..][1..] == node[j..];
    } else {
      assert node[0..] == node;
    }
  }

  lemma LoopAnswers(node: seq<NodeTurn>, c: int)
    ensures AnsweredBy(node, c, Loop(c, c, false, node))
  {
    var out := Loop(c, c, false, node);
    if node != [] {
      FirstAnswer(node, c);
    }
    if |node| >= 2 && node[0].answer.Failure? && NonceText(node[0].answer.text) {
      NonceErrorAnswer(node, c);
    }
    if forall i :: 0 <= i < |node| ==> KnownTurn(node[i]) {
      KnownAnswers(node, c, c, false, |node|);
    }
    forall j | 0 <= j < |node| && node[j].answer == Taken && (forall i :: 0 <= i < j ==> KnownTurn(node[i]))
      ensures out == (Some(Ok(c)), c + j + 1)
    {
      KnownAnswers(node, c, c, false, j);
    }
  }

  /** An error text around "nonce too low" makes the loop send the pending nonce. */
  lemma LowNonceResyncs(before: string, after: string, k: nat, pending: Option<nat>, c: int)
    requires !Occurs(before + "nonce too low" + after, "invalid sender")
    ensures var node := [NodeTurn(Failure(before + "nonce too low" + after), Some(k)), NodeTurn(Taken, pending)];
            Loop(c, c, false, node) == (Some(Ok(k)), k + 1)
  {
    var text := before + "nonce too low" + after;
    OccursAround(before, "nonce too low", after);
    NonceErrorAnswer([NodeTurn(Failure(text), Some(k)), NodeTurn(Taken, pending)], c);
  }

  class EthCommitter {
    const cache: Cache
    const fromAddress: Address

    /** The cache starts from the node's pending nonce if the node answers, from 0 otherwise. */
    constructor (fromAddress: Address, pending: Option<nat>)
      ensures this.fromAddress == fromAddress && fresh(cache)
      ensures cache.Peek(fromAddress) == if pending.Some? then pending.value else 0
    {
      var nonces := new Cache();
      nonces.Sync(fromAddress, pending);
      this.cache := nonces;
      this.fromAddress := fromAddress;
    }

    /** The part of the loop body that follows the node's reply. */
    method HandleReply(nonce: int, resyncUsed: bool, reply: Reply, pending: Option<nat>) returns (verdict: Verdict)
      modifies cache
      ensures (verdict, cache.Peek(fromAddress)) == Pass(old(cache.Peek(fromAddress)), nonce, resyncUsed, reply, pending)
      ensures forall a :: a != fromAddress ==> cache.Peek(a) == old(cache.Peek(a))
    {
      match reply {
        case SignFailed =>
          verdict := Return(Err);
        case Accepted =>
          var _ := cache.Incr(fromAddress);
          verdict := Return(Ok(nonce));
        case Refused(InvalidSender) =>
          var _ := cache.Incr(fromAddress);
          verdict := Return(Err);
        case Refused(WrongNonce) =>
          if resyncUsed {
            return Return(Err);
          }
          cache.Sync(fromAddress, pending);
          var current, _ := cache.Get(fromAddress);
          verdict := Again(current, true);
        case Refused(KnownTransaction) =>
          var _ := cache.Incr(fromAddress);
          verdict := Again(nonce, resyncUsed);
        case Refused(VMException) =>
          var _ := cache.Incr(fromAddress);
          verdict := Return(Err);
        case Refused(Other) =>
          verdict := Return(Err);
      }
    }

    /**
     SendTx inside the guard, as goroutine `t` of any state with this cache: the run of its turns.
     The call is still in its loop if `node` ends before it has returned.
     */
    method SendTx(node: seq<NodeTurn>, ghost s: State, ghost t: nat) returns (returned: bool, result: Result)
      requires t < |s.pcs| && s.pcs[t] == Locked && s.cache == cache.Peek(fromAddress)
      modifies cache
      ensures var r := Run(Step(s, t, Input(SignFailed, None)), LoopTurns(t, false, node));
              && r.cache == cache.Peek(fromAddress)
              && (if returned then r.pcs[t] == Leaving(result) else r.pcs[t].Ready?)
      ensures AnsweredBy(node, old(cache.Peek(fromAddress)), (if returned then Some(result) else None, cache.Peek(fromAddress)))
      ensures forall a :: a != fromAddress ==> cache.Peek(a) == old(cache.Peek(a))
    {
      var nonce, _ := cache.Get(fromAddress);
      var resyncUsed := false;
      ghost var now := Step(s, t, Input(SignFailed, None));
      ghost var end := Run(now, LoopTurns(t, false, node));
      ghost var answered := Loop(nonce, nonce, false, node);
      LoopAnswers(node, nonce);
      for i := 0 to |node|
        invariant |now.pcs| == |s.pcs| && now.pcs[t] == Ready(nonce, resyncUsed)
        invariant now.cache == cache.Peek(fromAddress)
        invariant Run(now, LoopTurns(t, resyncUsed, node[i..])) == end
        invariant Loop(cache.Peek(fromAddress), nonce, resyncUsed, node[i..]) == answered
        invariant forall a :: a != fromAddress ==> cache.Peek(a) == old(cache.Peek(a))
      {
        var reply := Heard(node[i].answer);
        ghost var input := Input(reply, node[i].pending);
        assert node[i..][0] == node[i] && node[i..][1..] == node[i + 1..];
        LoopPass(now, t, node[i..], input);
        PassIsSteps(now, t, input);
        now := PassSteps(now, t, input);
        var verdict := HandleReply(nonce, resyncUsed, reply, node[i].pending);
        match verdict {
          case Return(r) => return true, r;
          case Again(n, u) => nonce, resyncUsed := n, u;
        }
      }
      return false, Err;
    }
  }
}
