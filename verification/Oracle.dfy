/** The oracle as it runs: it keeps one height, asks both networks, and claims event by event. */
module Oracle {
  import opened Bridge
  import opened Sorting
  import opened OracleSpec
  import opened OracleTheorems
  import opened OracleRuns

  /** Both networks behind one script; every call first lets the environment move. */
  class Network {
    const script: Script
    var net: Net

    constructor (script: Script, world: World)
      ensures this.script == script && net == Net(world, 0)
    {
      this.script := script;
      net := Net(world, 0);
    }

    method Call() returns (reply: Reply)
      modifies this
      ensures net == Tick(script, old(net)) && reply == script(old(net.pos)).reply
    {
      reply := script(net.pos).reply;
      net := Tick(script, net);
    }

    method Broadcast(e: Event) returns (ok: bool, reply: Reply)
      modifies this
      ensures reply == script(old(net.pos)).reply
      ensures var m := Tick(script, old(net)); (ok, net) == (Post(m.world, e, reply).0, m.(world := Post(m.world, e, reply).1))
    {
      reply := Call();
      var r := Post(net.world, e, reply);
      ok := r.0;
      net := net.(world := r.1);
    }
  }

  method FilterEvents(events: seq<Event>, nonce: nat) returns (filtered: seq<Event>)
    ensures filtered == Newer(events, nonce)
  {
    filtered := [];
    for i := 0 to |events|
      invariant filtered + Newer(events[i..], nonce) == Newer(events, nonce)
    {
      var e := events[i];
      ghost var rest := Newer(events[i + 1..], nonce);
      assert events[i..][0] == e && events[i..][1..] == events[i + 1..];
      if e.nonce > nonce {
        assert filtered + ([e] + rest) == filtered + [e] + rest;
        filtered := filtered + [e];
      } else {
        assert [] + rest == rest;
      }
    }
  }

  /** The results read so far, put before the rest of them. */
  function Prepend(results: seq<seq<Event>>, r: (Out<seq<seq<Event>>>, Net)): (Out<seq<seq<Event>>>, Net) {
    if r.0.Done? then (Done(results + r.0.value), r.1) else r
  }

  class EthOracle {
    const network: Network
    const cfg: Config
    var lastObservedEthHeight: nat

    constructor (network: Network, cfg: Config, lastObservedBlock: nat)
      ensures this.network == network && this.cfg == cfg && lastObservedEthHeight == lastObservedBlock
    {
      this.network := network;
      this.cfg := cfg;
      lastObservedEthHeight := lastObservedBlock;
    }

    method GetLatestEthHeight() returns (out: Out<nat>)
      modifies network
      ensures network.net == Read(network.script, old(network.net), cfg.attempts).1
      ensures out == match Read(network.script, old(network.net), cfg.attempts).0
                     case Done(_) => Done(network.net.world.head)
                     case Failed => Failed
                     case Crashed => Crashed
    {
      for attempt := 0 to cfg.attempts
        invariant Read(network.script, network.net, cfg.attempts - attempt) == Read(network.script, old(network.net), cfg.attempts)
      {
        var reply := network.Call();
        if reply == Fine {
          return Done(network.net.world.head);
        } else if reply == Crash {
          return Crashed;
        }
      }
      return Failed;
    }

    method GetLastClaimEvent() returns (out: Out<Claim>)
      modifies network
      ensures network.net == Read(network.script, old(network.net), cfg.attempts).1
      ensures out == match Read(network.script, old(network.net), cfg.attempts).0
                     case Done(_) => Done(network.net.world.claim)
                     case Failed => Failed
                     case Crashed => Crashed
    {
      for attempt := 0 to cfg.attempts
        invariant Read(network.script, network.net, cfg.attempts - attempt) == Read(network.script, old(network.net), cfg.attempts)
      {
        var reply := network.Call();
        if reply == Fine {
          return Done(network.net.world.claim);
        } else if reply == Crash {
          return Crashed;
        }
      }
      return Failed;
    }

    /** The queries of one attempt, in the given order, until one fails. */
    method QueryKinds(kinds: seq<Kind>, startBlock: nat, endBlock: nat) returns (out: Out<seq<seq<Event>>>)
      modifies network
      ensures (out, network.net) == ReadKinds(network.script, old(network.net), startBlock, endBlock, kinds)
    {
      var results: seq<seq<Event>> := [];
      ghost var whole := ReadKinds(network.script, network.net, startBlock, endBlock, kinds);
      assert kinds[0..] == kinds;
      assert whole.0.Done? ==> [] + whole.0.value == whole.0.value;
      for k := 0 to |kinds|
        invariant Prepend(results, ReadKinds(network.script, network.net, startBlock, endBlock, kinds[k..])) == whole
      {
        assert kinds[k..][1..] == kinds[k + 1..];
        var reply := network.Call();
        if reply == Crash {
          return Crashed;
        } else if reply != Fine {
          return Failed;
        }
        var found := Query(network.net.world.log, kinds[k], startBlock, endBlock);
        ghost var tail := ReadKinds(network.script, network.net, startBlock, endBlock, kinds[k + 1..]);
        assert tail.0.Done? ==> results + ([found] + tail.0.value) == results + [found] + tail.0.value;
        results := results + [found];
      }
      assert results + [] == results;
      return Done(results);
    }

    /** One attempt to read the five event kinds. */
    method ScanEthEvents(startBlock: nat, endBlock: nat) returns (out: Out<seq<Event>>)
      modifies network
      ensures (out, network.net) == FetchOnce(network.script, old(network.net), startBlock, endBlock)
    {
      var results := QueryKinds(QUERY_ORDER, startBlock, endBlock);
      match results {
        case Done(rs) => return Done(Assemble(rs));
        case Failed => return Failed;
        case Crashed => return Crashed;
      }
    }

    method GetEthEvents(startBlock: nat, endBlock: nat) returns (out: Out<seq<Event>>)
      modifies network
      ensures (out, network.net) == Fetch(network.script, old(network.net), startBlock, endBlock, cfg.attempts)
    {
      ghost var whole := Fetch(network.script, network.net, startBlock, endBlock, cfg.attempts);
      for attempt := 0 to cfg.attempts
        invariant Fetch(network.script, network.net, startBlock, endBlock, cfg.attempts - attempt) == whole
      {
        out := ScanEthEvents(startBlock, endBlock);
        if !out.Failed? {
          return;
        }
      }
      return Failed;
    }

    /** One attempt to claim what is newer than the last claim. */
    method SendOnceMore(events: seq<Event>) returns (out: Out<()>)
      modifies network
      ensures (out, network.net) == SendOnce(network.script, old(network.net), events)
    {
      var reply := network.Call();
      if reply == Crash {
        return Crashed;
      } else if reply != Fine {
        return Failed;
      }
      var newEvents := FilterEvents(events, network.net.world.claim.nonce);
      ghost var whole := PostAll(network.script, network.net, newEvents);
      for i := 0 to |newEvents|
        invariant PostAll(network.script, network.net, newEvents[i..]) == whole
      {
        assert newEvents[i..][1..] == newEvents[i + 1..];
        var ok, posted := network.Broadcast(newEvents[i]);
        if !ok {
          return if posted == Crash then Crashed else Failed;
        }
      }
      return Done(());
    }

    method SendNewEventClaims(events: seq<Event>) returns (out: Out<()>)
      modifies network
      ensures (out, network.net) == Send(network.script, old(network.net), events, cfg.attempts)
    {
      ghost var whole := Send(network.script, network.net, events, cfg.attempts);
      for attempt := 0 to cfg.attempts
        invariant Send(network.script, network.net, events, cfg.attempts - attempt) == whole
      {
        out := SendOnceMore(events);
        if !out.Failed? {
          return;
        }
      }
      return Failed;
    }

    method IsBonded(members: seq<string>) returns (bonded: bool)
      ensures bonded <==> cfg.address in members
    {
      bonded := false;
      for i := 0 to |members|
        invariant bonded <==> cfg.address in members[..i]
      {
        if members[i] == cfg.address {
          bonded := true;
        }
      }
    }

    /** One round. */
    method ObserveEthEvents() returns (exit: Exit)
      modifies this`lastObservedEthHeight, network
      ensures Report(exit, network.net, lastObservedEthHeight) ==
              Round(network.script, old(network.net), cfg, old(lastObservedEthHeight))
      ensures exit == Gap && Valid(network.net.world) ==> lastObservedEthHeight == ClaimedHeight(network.net.world)
    {
      var reply := network.Call();
      if reply != Fine {
        return if reply == Crash then Died else Error;
      }
      var bonded := IsBonded(network.net.world.active);
      if !bonded {
        return Inactive;
      }
      var height := GetLatestEthHeight();
      if !height.Done? {
        return if height.Crashed? then Died else Error;
      }
      var latestHeight := height.value;
      if latestHeight <= CONFIRMATION_DELAY {
        return TooShort;
      }
      latestHeight := latestHeight - CONFIRMATION_DELAY;
      if latestHeight <= lastObservedEthHeight {
        return UpToDate;
      }
      if latestHeight > lastObservedEthHeight + BLOCKS_TO_SEARCH {
        latestHeight := lastObservedEthHeight + BLOCKS_TO_SEARCH;
      }
      ghost var n := network.net;
      assert ScanEnd(n.world.head, lastObservedEthHeight) == To(latestHeight);
      assert LookAround(network.script, old(network.net), cfg, lastObservedEthHeight)
          == Gather(network.script, n, cfg, lastObservedEthHeight, latestHeight);
      exit := ClaimUpTo(latestHeight);
    }

    /** The second half of a round: the scan up to `latestHeight` and what follows from it. */
    method ClaimUpTo(latestHeight: nat) returns (exit: Exit)
      modifies this`lastObservedEthHeight, network
      ensures Report(exit, network.net, lastObservedEthHeight) ==
              match Gather(network.script, old(network.net), cfg, old(lastObservedEthHeight), latestHeight)
              case Stopped(report) => report
              case Looked(m, end, events) =>
                Act(network.script, m, cfg, old(lastObservedEthHeight), end, Batch(events, m.world.claim.nonce))
      ensures exit == Gap && Valid(network.net.world) ==> lastObservedEthHeight == ClaimedHeight(network.net.world)
    {
      var events := GetEthEvents(lastObservedEthHeight, latestHeight);
      if !events.Done? {
        return if events.Crashed? then Died else Error;
      }
      var lastClaim := GetLastClaimEvent();
      if !lastClaim.Done? {
        return if lastClaim.Crashed? then Died else Error;
      }
      var newEvents := FilterEvents(events.value, lastClaim.value.nonce);
      newEvents := SortBy(newEvents, NonceOrder);
      if newEvents == [] {
        lastObservedEthHeight := latestHeight;
        return NoNews;
      }
      if newEvents[0].nonce != lastClaim.value.nonce + 1 {
        lastObservedEthHeight := lastClaim.value.height;
        return Gap;
      }
      var sent := SendNewEventClaims(newEvents);
      if !sent.Done? {
        return if sent.Crashed? then Died else Error;
      }
      lastObservedEthHeight := latestHeight;
      return Sent;
    }
  }

  /** The height of the last claim; an error counts as height 0. */
  method GetLastClaimBlockHeight(network: Network) returns (height: nat, died: bool)
    modifies network
    ensures network.net == Tick(network.script, old(network.net))
    ensures died <==> network.script(old(network.net.pos)).reply == Crash
    ensures height == if network.script(old(network.net.pos)).reply == Fine then network.net.world.claim.height else 0
  {
    var reply := network.Call();
    return if reply == Fine then network.net.world.claim.height else 0, reply == Crash;
  }

  /** The start in validator mode, up to the oracle's loop. */
  method StartValidatorMode(network: Network, address: string) returns (oracle: EthOracle?)
    modifies network
    ensures oracle != null ==> fresh(oracle) && oracle.network == network && oracle.cfg == Config(address, MAX_ATTEMPTS)
    ensures State(network.net, if oracle == null then Down else Up(oracle.lastObservedEthHeight))
         == Start(network.script, old(network.net))
    ensures Valid(old(network.net.world)) ==>
            ChosenStart(network.script, old(network.net),
                        State(network.net, if oracle == null then Down else Up(oracle.lastObservedEthHeight)))
  {
    if Valid(network.net.world) {
      StartChooses(network.script, network.net);
    }
    var lastObservedEthBlock, died := GetLastClaimBlockHeight(network);
    if died {
      return null;
    }
    if lastObservedEthBlock == 0 {
      var reply := network.Call();
      if reply != Fine {
        return null;
      }
      lastObservedEthBlock := network.net.world.start;
    }
    var reply := network.Call();
    if reply != Fine {
      return null;
    }
    oracle := new EthOracle(network, Config(address, MAX_ATTEMPTS), lastObservedEthBlock);
  }
}
