/** The window of contract calls that were seen pending in the mempool. */
module PendingTx {
  import opened Hex

  const CAPACITY: nat := 100

  datatype Input = Input(data: seq<Byte>, received: int)

  /** The selectors of submitBatch and updateValset. */
  datatype Selectors = Selectors(submitBatch: seq<Byte>, updateValset: seq<Byte>)

  // ----- what the list should hold

  ghost predicate Relevant(x: Input, ids: Selectors) {
    |x.data| >= 4 && (x.data[..4] == ids.submitBatch || x.data[..4] == ids.updateValset)
  }

  ghost function RelevantOf(arrivals: seq<Input>, ids: Selectors): seq<Input> {
    if arrivals == [] then []
    else
      var front, last := RelevantOf(arrivals[..|arrivals| - 1], ids), arrivals[|arrivals| - 1];
      if Relevant(last, ids) then front + [last] else front
  }

  ghost function Newest(s: seq<Input>): seq<Input> {
    if |s| <= CAPACITY then s else s[|s| - CAPACITY..]
  }

  /** `tail` is the end of `s`. */
  ghost predicate EndsWith(s: seq<Input>, tail: seq<Input>) {
    |tail| <= |s| && s[|s| - |tail|..] == tail
  }

  /** Appending to what was kept, and cutting again, is the same as cutting once. */
  lemma NewestNext(s: seq<Input>, x: Input)
    ensures Newest(s + [x]) == Newest(Newest(s) + [x])
  {
    var kept := Newest(s) + [x];
    if |s| >= CAPACITY {
      assert (s + [x])[|s| + 1 - CAPACITY..] == kept[|kept| - CAPACITY..];
    }
  }

  lemma RelevantNext(arrivals: seq<Input>, k: nat, ids: Selectors)
    requires k < |arrivals|
    ensures RelevantOf(arrivals[..k + 1], ids) ==
            if Relevant(arrivals[k], ids) then RelevantOf(arrivals[..k], ids) + [arrivals[k]] else RelevantOf(arrivals[..k], ids)
  {
    assert arrivals[..k + 1][..k] == arrivals[..k];
  }

  /** Received in order of time. */
  ghost predicate Chronological(s: seq<Input>) {
    forall i, j :: 0 <= i < j < |s| ==> s[i].received <= s[j].received
  }

  /** The filter keeps exactly the relevant inputs, however often each arrives. */
  lemma {:induction false} RelevantCounts(arrivals: seq<Input>, ids: Selectors, x: Input)
    ensures multiset(RelevantOf(arrivals, ids))[x] == if Relevant(x, ids) then multiset(arrivals)[x] else 0
  {
    if arrivals != [] {
      var n := |arrivals| - 1;
      RelevantCounts(arrivals[..n], ids, x);
      assert arrivals == arrivals[..n] + [arrivals[n]];
    }
  }

  lemma {:induction false} RelevantInOrder(arrivals: seq<Input>, ids: Selectors)
    requires Chronological(arrivals)
    ensures Chronological(RelevantOf(arrivals, ids))
    ensures forall x :: x in RelevantOf(arrivals, ids) <==> x in arrivals && Relevant(x, ids)
  {
    if arrivals != [] {
      var n := |arrivals| - 1;
      RelevantInOrder(arrivals[..n], ids);
      assert arrivals == arrivals[..n] + [arrivals[n]];
      forall x | x in arrivals[..n] ensures x.received <= arrivals[n].received {
        var i :| 0 <= i < n && arrivals[i] == x;
      }
    }
  }

  ghost predicate FirstMatch(s: seq<Input>, tx: seq<Byte>, i: int) {
    0 <= i < |s| && s[i].data == tx && forall k :: 0 <= k < i ==> s[k].data != tx
  }

  // ----- the code

  /** Inputs of fewer than four bytes panic. */
  datatype Answer = Panic | Is(value: bool)

  method IsBatchOrValsetUpdateTx(x: Input, ids: Selectors) returns (answer: Answer)
    ensures answer.Panic? <==> |x.data| < 4
    ensures answer.Is? ==> (answer.value <==> Relevant(x, ids))
  {
    if |x.data| < 4 {
      return Panic;
    }
    return Is(x.data[..4] == ids.submitBatch || x.data[..4] == ids.updateValset);
  }

  class InputList {
    var list: seq<Input>

    constructor ()
      ensures list == []
    {
      list := [];
    }

    method AddPendingTxInput(x: Input, ids: Selectors) returns (panicked: bool)
      modifies this
      ensures panicked <==> |x.data| < 4
      ensures |old(list)| <= CAPACITY ==> list == if Relevant(x, ids) then Newest(old(list) + [x]) else old(list)
    {
      var answer := IsBatchOrValsetUpdateTx(x, ids);
      if answer.Panic? {
        return true;
      }
      panicked := false;
      if !answer.value {
        return;
      }
      list := list + [x];
      if |list| > CAPACITY {
        list := list[1..];
      }
    }

    /**
     The subscription's loop, up to the end of `arrivals` or the first panic: the list holds exactly
     the newest relevant inputs, in the order of their arrival.
     */
    method Receive(arrivals: seq<Input>, ids: Selectors) returns (handled: nat)
      requires list == []
      modifies this
      ensures handled <= |arrivals| && forall k :: 0 <= k < handled ==> |arrivals[k].data| >= 4
      ensures handled < |arrivals| ==> |arrivals[handled].data| < 4
      ensures list == Newest(RelevantOf(arrivals[..handled], ids))
      ensures |RelevantOf(arrivals[..handled], ids)| <= 100 ==> list == RelevantOf(arrivals[..handled], ids)
      ensures |RelevantOf(arrivals[..handled], ids)| > 100 ==> |list| == 100 && EndsWith(RelevantOf(arrivals[..handled], ids), list)
      ensures Chronological(arrivals) ==> Chronological(list)
    {
      handled := 0;
      ghost var seen: seq<Input> := [];
      while handled < |arrivals|
        invariant handled <= |arrivals| && forall k :: 0 <= k < handled ==> |arrivals[k].data| >= 4
        invariant seen == RelevantOf(arrivals[..handled], ids) && list == Newest(seen)
      {
        var x := arrivals[handled];
        var panicked := AddPendingTxInput(x, ids);
        if panicked {
          break;
        }
        RelevantNext(arrivals, handled, ids);
        if Relevant(x, ids) {
          NewestNext(seen, x);
          seen := seen + [x];
        }
        handled := handled + 1;
      }
      if Chronological(arrivals) {
        RelevantInOrder(arrivals[..handled], ids);
      }
    }

    /** Only the oldest match is looked at; in chronological order it is the first to expire. */
    method IsPendingTxInput(tx: seq<Byte>, wait: int, now: int) returns (pending: bool)
      ensures Chronological(list) ==>
              (pending <==>
               && (exists i :: 0 <= i < |list| && list[i].data == tx)
               && (forall i :: 0 <= i < |list| && list[i].data == tx ==> now < list[i].received + wait))
      ensures pending <==>
              exists i :: FirstMatch(list, tx, i) && now < list[i].received + wait
    {
      for i := 0 to |list|
        invariant forall k :: 0 <= k < i ==> list[k].data != tx
      {
        if list[i].data == tx {
          pending := now < list[i].received + wait;
          assert FirstMatch(list, tx, i);
          return;
        }
      }
      return false;
    }
  }
}
