/** The backward search for the latest valset update on Ethereum. */
module ValsetSearch {
  import opened Hex
  import opened Sorting
  import opened Valsets
  import opened Options
  import opened Members

  const BLOCKS_TO_SEARCH: nat := 2000

  datatype UpdateEvent = UpdateEvent(height: nat, nonce: nat, powers: seq<nat>, validators: seq<Address>,
                                     rewardAmount: nat, rewardToken: Address)

  datatype Hit = Hit(event: UpdateEvent) | QueryFailed | NotFound

  datatype Outcome = HeaderFailed | NonceFailed | ValsetFailed | EventsFailed | Nothing | Panic | Found(valset: Valset)

  // ----- one scan of the whole log, the reference

  /** The log is in the order of the chain, and every update raises the nonce. */
  ghost predicate Orderly(log: seq<UpdateEvent>) {
    forall i, j :: 0 <= i < j < |log| ==> log[i].height <= log[j].height && log[i].nonce < log[j].nonce
  }

  /** The last update up to the head. */
  function Scan(log: seq<UpdateEvent>, head: nat): Option<UpdateEvent> {
    if log == [] then None
    else if log[|log| - 1].height <= head then Some(log[|log| - 1])
    else Scan(log[..|log| - 1], head)
  }

  /** The scan finds the update with the greatest nonce of all up to the head. */
  lemma {:induction false} ScanFindsGreatest(log: seq<UpdateEvent>, head: nat, e: UpdateEvent)
    requires Orderly(log)
    ensures Scan(log, head) == Some(e) <==>
            e in log && e.height <= head && forall f :: f in log && f.height <= head ==> f == e || f.nonce < e.nonce
    ensures Scan(log, head).None? <==> NoneIn(log, 0, head)
  {
    if log != [] {
      var n := |log| - 1;
      assert log == log[..n] + [log[n]];
      if log[n].height <= head {
        forall f | f in log ensures f == log[n] || f.nonce < log[n].nonce {
          var i :| 0 <= i < |log| && log[i] == f;
        }
      } else {
        ScanFindsGreatest(log[..n], head, e);
      }
    }
  }

  ghost predicate NoneIn(log: seq<UpdateEvent>, from: nat, to: nat) {
    forall e :: e in log ==> !(from <= e.height <= to)
  }

  /** How many windows reach back over `blocks` blocks. */
  function Windows(blocks: nat): nat {
    (blocks + BLOCKS_TO_SEARCH - 1) / BLOCKS_TO_SEARCH
  }

  // ----- the search

  function Updates(log: seq<UpdateEvent>, from: nat, to: nat): (r: seq<UpdateEvent>)
    ensures forall e :: e in r <==> e in log && from <= e.height <= to
  {
    if log == [] then []
    else
      var rest := Updates(log[1..], from, to);
      assert log == [log[0]] + log[1..];
      if from <= log[0].height <= to then [log[0]] + rest else rest
  }

  predicate GreaterNonce(e: UpdateEvent, f: UpdateEvent) {
    e.nonce >= f.nonce
  }

  method HighestFirst(events: seq<UpdateEvent>) returns (sorted: seq<UpdateEvent>)
    ensures multiset(sorted) == multiset(events)
    ensures |sorted| == |events|
    ensures sorted != [] ==> sorted[0] in events && forall e :: e in events ==> e.nonce <= sorted[0].nonce
  {
    sorted := SortBy(events, GreaterNonce);
    SortByOrders(events, GreaterNonce);
    assert |multiset(sorted)| == |sorted| && |multiset(events)| == |events|;
    if sorted != [] {
      assert sorted[0] in multiset(events);
      forall e | e in events ensures e.nonce <= sorted[0].nonce {
        assert e in multiset(sorted);
        var i :| 0 <= i < |sorted| && sorted[i] == e;
        assert i == 0 || GreaterNonce(sorted[0], sorted[i]);
      }
    }
  }

  /** Above the window nothing was found, so the window's highest nonce is the log's. */
  lemma WindowDecides(log: seq<UpdateEvent>, head: nat, from: nat, to: nat, e: UpdateEvent)
    requires Orderly(log) && from <= to <= head && (to < head ==> NoneIn(log, to, head))
    requires e in log && from <= e.height <= to
    requires forall f :: f in log && from <= f.height <= to ==> f.nonce <= e.nonce
    ensures Scan(log, head) == Some(e)
  {
    var k :| 0 <= k < |log| && log[k] == e;
    forall f | f in log && f.height <= head ensures f == e || f.nonce < e.nonce {
      var i :| 0 <= i < |log| && log[i] == f;
    }
    ScanFindsGreatest(log, head, e);
  }

  /** What the scan of the whole log says; the search answers nothing at head 0. */
  function FromScan(log: seq<UpdateEvent>, head: nat): Hit {
    if head == 0 then NotFound else match Scan(log, head) case None => NotFound case Some(e) => Hit(e)
  }

  /** How many queries it takes to get back to the last update. */
  function Needed(log: seq<UpdateEvent>, head: nat): nat {
    match FromScan(log, head)
    case Hit(e) => if e.height >= head then 1 else Windows(head - e.height)
    case _ => Windows(head)
  }

  /** The block at which query number `queries`, counted from 0, ends. */
  function WindowEnd(head: nat, queries: nat): nat {
    if head > BLOCKS_TO_SEARCH * queries then head - BLOCKS_TO_SEARCH * queries else 0
  }

  function WindowStart(current: nat): nat {
    if current <= BLOCKS_TO_SEARCH then 0 else current - BLOCKS_TO_SEARCH
  }

  /** Nothing was found so far, so one more query is needed. */
  lemma OneMoreNeeded(log: seq<UpdateEvent>, head: nat, queries: nat)
    requires Orderly(log) && WindowEnd(head, queries) > 0
    requires queries > 0 ==> NoneIn(log, WindowEnd(head, queries), head)
    ensures queries < Needed(log, head)
  {
    if FromScan(log, head).Hit? {
      ScanFindsGreatest(log, head, FromScan(log, head).event);
    }
  }

  /** A window with an update in it is the last that is needed. */
  lemma LastNeeded(log: seq<UpdateEvent>, head: nat, queries: nat, e: UpdateEvent)
    requires Scan(log, head) == Some(e) && WindowEnd(head, queries) > 0
    requires WindowStart(WindowEnd(head, queries)) <= e.height <= WindowEnd(head, queries)
    ensures Needed(log, head) <= queries + 1
  {
  }

  /** Empty windows down to block 0 are as many as there are, and the log has no update. */
  lemma NoneNeeded(log: seq<UpdateEvent>, head: nat, queries: nat)
    requires Orderly(log) && WindowEnd(head, queries) == 0 && (queries > 0 ==> WindowEnd(head, queries - 1) > 0)
    requires head > 0 ==> NoneIn(log, 0, head)
    ensures FromScan(log, head) == NotFound && queries == Needed(log, head)
  {
    if FromScan(log, head).Hit? {
      ScanFindsGreatest(log, head, FromScan(log, head).event);
      assert false;
    }
  }

  /** One answered query: the update of the window with the greatest nonce, if there is any. */
  method SearchWindow(log: seq<UpdateEvent>, start: nat, end: nat) returns (found: Option<UpdateEvent>)
    ensures found.None? <==> NoneIn(log, start, end)
    ensures found.Some? ==> GreatestIn(found.value, log, start, end)
  {
    var events := Updates(log, start, end);
    var sorted := HighestFirst(events);
    if |sorted| == 0 {
      forall e | e in log ensures !(start <= e.height <= end) {
        assert e !in events;
      }
      return None;
    }
    assert sorted[0] in log && start <= sorted[0].height <= end;
    return Some(sorted[0]);
  }

  ghost predicate GreatestIn(e: UpdateEvent, log: seq<UpdateEvent>, start: nat, end: nat) {
    e in log && start <= e.height <= end && forall f :: f in log && start <= f.height <= end ==> f.nonce <= e.nonce
  }

  lemma WindowsCount(head: nat, queries: nat)
    ensures WindowEnd(head, queries) > 0 ==> queries < Windows(head)
    ensures WindowEnd(head, queries) == 0 && (queries > 0 ==> WindowEnd(head, queries - 1) > 0) ==> queries == Windows(head)
    ensures WindowStart(WindowEnd(head, queries)) == WindowEnd(head, queries + 1) <= WindowEnd(head, queries) <= head
    ensures WindowEnd(head, queries) > 0 ==> WindowEnd(head, queries + 1) < WindowEnd(head, queries)
  {
  }

  /** The first window with an update decides. */
  lemma HitDecides(log: seq<UpdateEvent>, head: nat, queries: nat, e: UpdateEvent)
    requires Orderly(log) && WindowEnd(head, queries) > 0
    requires queries > 0 ==> NoneIn(log, WindowEnd(head, queries), head)
    requires GreatestIn(e, log, WindowStart(WindowEnd(head, queries)), WindowEnd(head, queries))
    ensures FromScan(log, head) == Hit(e) && Needed(log, head) == queries + 1
  {
    WindowsCount(head, queries);
    WindowDecides(log, head, WindowStart(WindowEnd(head, queries)), WindowEnd(head, queries), e);
    OneMoreNeeded(log, head, queries);
    LastNeeded(log, head, queries, e);
  }

  /** A search that stops at the first failing query fails exactly if one of those it needs does. */
  lemma FailsExactly(needed: nat, queries: nat, failed: bool, fails: nat -> bool)
    requires queries <= needed && (failed <==> queries > 0 && fails(queries - 1)) && (!failed ==> queries == needed)
    requires forall k :: 0 <= k < queries - 1 ==> !fails(k)
    ensures failed <==> exists k :: 0 <= k < needed && fails(k)
  {
  }

  /**
   `fails(k)` tells whether the k-th query, counted from 0, is answered by an error. The search
   answers as one scan of the whole log does, unless one of the queries it needs fails.
   */
  method FindLatestEvent(head: nat, log: seq<UpdateEvent>, fails: nat -> bool) returns (hit: Hit, queries: nat)
    ensures queries <= Windows(head)
    ensures hit.QueryFailed? <==> queries > 0 && fails(queries - 1)
    ensures forall k :: 0 <= k < queries - 1 ==> !fails(k)
    ensures !hit.QueryFailed? ==> (hit.NotFound? <==> head == 0 || NoneIn(log, 0, head))
    ensures Orderly(log) ==> queries <= Needed(log, head)
    ensures Orderly(log) && !hit.QueryFailed? ==> queries == Needed(log, head) && hit == FromScan(log, head)
  {
    var currentBlock := head;
    queries := 0;
    while currentBlock > 0
      invariant currentBlock == WindowEnd(head, queries) && (queries > 0 ==> WindowEnd(head, queries - 1) > 0)
      invariant queries > 0 ==> NoneIn(log, currentBlock, head)
      invariant forall k :: 0 <= k < queries ==> !fails(k)
    {
      WindowsCount(head, queries);
      var startSearchBlock := WindowStart(currentBlock);
      if Orderly(log) {
        OneMoreNeeded(log, head, queries);
      }
      if fails(queries) {
        return QueryFailed, queries + 1;
      }
      var found := SearchWindow(log, startSearchBlock, currentBlock);
      if found.Some? {
        if Orderly(log) {
          HitDecides(log, head, queries, found.value);
        }
        return Hit(found.value), queries + 1;
      }
      currentBlock, queries := startSearchBlock, queries + 1;
    }
    WindowsCount(head, queries);
    if Orderly(log) {
      NoneNeeded(log, head, queries);
    }
    return NotFound, queries;
  }

  // ----- the valset that is returned

  function EventMember(power: nat, validator: Address, hex: Address -> string): Member {
    Member(power % TWO64, hex(validator))
  }

  /** The members an event announces, with powers cut to 64 bits; None if a power has no validator. */
  function EventMembers(powers: seq<nat>, validators: seq<Address>, hex: Address -> string): (members: Option<seq<Member>>)
    ensures members.None? <==> |validators| < |powers|
    ensures members.Some? ==> |members.value| == |powers|
  {
    if powers == [] then Some([])
    else
      var n := |powers| - 1;
      var front := EventMembers(powers[..n], validators, hex);
      if front.None? || |validators| <= n then None
      else Some(front.value + [EventMember(powers[n], validators[n], hex)])
  }

  method BuildMembers(powers: seq<nat>, validators: seq<Address>, hex: Address -> string) returns (members: Option<seq<Member>>)
    ensures members == EventMembers(powers, validators, hex)
  {
    var built: seq<Member> := [];
    for i := 0 to |powers|
      invariant i <= |validators|
      invariant EventMembers(powers[..i], validators, hex) == Some(built)
    {
      assert powers[..i + 1][..i] == powers[..i];
      if i >= |validators| {
        return None;
      }
      var member := EventMember(powers[i], validators[i], hex);
      built := built + [member];
    }
    assert powers[..|powers|] == powers;
    return Some(built);
  }

  /** Read one by one: member i carries power i, modulo 2^64, and address i. */
  lemma {:induction false} EventMemberAt(powers: seq<nat>, validators: seq<Address>, hex: Address -> string, i: nat)
    requires i < |powers| <= |validators|
    ensures EventMembers(powers, validators, hex).value[i] == Member(powers[i] % TWO64, hex(validators[i]))
  {
    var n := |powers| - 1;
    if i < n {
      EventMemberAt(powers[..n], validators, hex, i);
    }
  }

  /**
   The whole operation. `header`, `contractNonce` and `cosmos` are the answers of the two chains,
   None for an error; the set found on Injective may be missing. `hex` prints an address.
   */
  method FindLatestValsetOnEth(header: Option<nat>, contractNonce: Option<nat>, cosmos: Option<Valset?>,
                               log: seq<UpdateEvent>, fails: nat -> bool, hex: Address -> string)
    returns (out: Outcome, verdict: Option<Verdict>)
    modifies if cosmos.Some? then {cosmos.value} else {}
    ensures out.HeaderFailed? <==> header.None?
    ensures out.NonceFailed? <==> header.Some? && contractNonce.None?
    ensures out.ValsetFailed? <==> header.Some? && contractNonce.Some? && cosmos.None?
    ensures header.Some? && contractNonce.Some? && cosmos.Some? && Orderly(log) ==>
            (out.EventsFailed? <==> exists k :: 0 <= k < Needed(log, header.value) && fails(k))
    ensures header.Some? && contractNonce.Some? && cosmos.Some? && !out.EventsFailed? ==>
            (out.Nothing? <==> header.value == 0 || NoneIn(log, 0, header.value))
    ensures out.Panic? && Orderly(log) ==>
            FromScan(log, header.value).Hit? && var e := FromScan(log, header.value).event; |e.validators| < |e.powers|
    ensures out.Found? ==> fresh(out.valset) && verdict.Some?
    ensures out.Found? && Orderly(log) ==>
            && FromScan(log, header.value).Hit?
            && var e := FromScan(log, header.value).event;
               && |e.powers| <= |e.validators|
               && out.valset.nonce == e.nonce % TWO64 && out.valset.rewardAmount == e.rewardAmount
               && out.valset.rewardToken == hex(e.rewardToken)
               && var announced := EventMembers(e.powers, e.validators, hex).value;
                  out.valset.members == if verdict.value.Compared? then Sorted(announced) else announced
    ensures out.Found? ==>
            && (verdict.value.Bootstrapping? <==> cosmos.value == null && out.valset.nonce == 0)
            && (verdict.value.Missing? <==> cosmos.value == null && out.valset.nonce != 0)
            && (verdict.value.WrongNonce? <==> cosmos.value != null && cosmos.value.nonce != out.valset.nonce)
            && (verdict.value.WrongLength? <==> cosmos.value != null && cosmos.value.nonce == out.valset.nonce &&
                                                |old(cosmos.value.members)| != |out.valset.members|)
            && (verdict.value.Compared? ==>
                  (verdict.value.errors > 0 <==> multiset(old(cosmos.value.members)) != multiset(out.valset.members)))
    ensures cosmos.Some? && cosmos.value != null ==>
            cosmos.value.members ==
            if out.Found? && verdict.value.Compared? then Sorted(old(cosmos.value.members)) else old(cosmos.value.members)
  {
    verdict := None;
    if header.None? {
      return HeaderFailed, None;
    }
    if contractNonce.None? {
      return NonceFailed, None;
    }
    if cosmos.None? {
      return ValsetFailed, None;
    }
    var hit, queries := FindLatestEvent(header.value, log, fails);
    if Orderly(log) {
      FailsExactly(Needed(log, header.value), queries, hit.QueryFailed?, fails);
    }
    match hit
    case QueryFailed =>
      return EventsFailed, None;
    case NotFound =>
      return Nothing, None;
    case Hit(e) =>
      var members := BuildMembers(e.powers, e.validators, hex);
      if members.None? {
        return Panic, None;
      }
      var valset := new Valset(e.nonce % TWO64, members.value, e.rewardAmount, hex(e.rewardToken));
      var v := CheckIfValsetsDiffer(cosmos.value, valset);
      return Found(valset), Some(v);
  }
}
