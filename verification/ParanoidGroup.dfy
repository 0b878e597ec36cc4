/**
 A group of goroutines that report their errors through a channel of ten slots, a goroutine that
 closes the channel after the last of them, and the polling loop of Wait. A run is any
 interleaving of their steps.
 */
module ParanoidGroup {

  const SLOTS: nat := 10

  datatype Task = Succeeds | Fails(error: string) | RunsForever

  /** Where a task's goroutine stands: in its function, at the channel, before or after wg.Done. */
  datatype Phase = Running | Sending | Returning | Done

  datatype Result = Waiting | Nil | Errors

  /**
   `channel` and `errs` hold the tasks whose errors are in the channel and in Wait's list, in order.
   A send on a closed channel, or a wait group that was never made, panics.
   */
  datatype State = State(phases: seq<Phase>, channel: seq<nat>, closed: bool, errs: seq<nat>, result: Result, panicked: bool)

  datatype Step = Finish(i: nat) | Push(i: nat) | Retire(i: nat) | Close | Poll

  function Init(tasks: seq<Task>): State {
    State(seq(|tasks|, _ => Running), [], false, [], Waiting, false)
  }

  predicate AllDone(s: State) {
    forall i :: 0 <= i < |s.phases| ==> s.phases[i] == Done
  }

  /** A step of a task's goroutine. */
  function DoTask(t: Task, s: State, a: Step): State
    requires a.Finish? || a.Push? || a.Retire?
    requires a.i < |s.phases|
  {
    match (a, s.phases[a.i])
    case (Finish(i), Running) =>
      if t.RunsForever? then s else s.(phases := s.phases[i := if t.Fails? then Sending else Returning])
    case (Push(i), Sending) =>
      if s.closed then s.(panicked := true)
      else if |s.channel| >= SLOTS then s
      else s.(phases := s.phases[i := Returning], channel := s.channel + [i])
    case (Retire(i), Returning) => s.(phases := s.phases[i := Done])
    case _ => s
  }

  /** A turn of Wait's loop. */
  function DoPoll(s: State): State {
    if s.result != Waiting then s
    else if s.channel != [] then s.(errs := s.errs + [s.channel[0]], channel := s.channel[1..])
    else if s.closed then s.(result := Nil)
    else if s.errs != [] then s.(result := Errors)
    else s
  }

  /** One step; a goroutine that cannot move stays where it is. */
  function Do(tasks: seq<Task>, s: State, a: Step): State
    requires |s.phases| == |tasks|
  {
    if s.panicked then s
    else
      match a
      case Close =>
        if tasks == [] then s.(panicked := true)
        else if AllDone(s) then s.(closed := true)
        else s
      case Poll => DoPoll(s)
      case _ => if a.i < |tasks| then DoTask(tasks[a.i], s, a) else s
  }

  function Run(tasks: seq<Task>, steps: seq<Step>): (s: State)
    ensures |s.phases| == |tasks|
  {
    if steps == [] then Init(tasks)
    else Do(tasks, Run(tasks, steps[..|steps| - 1]), steps[|steps| - 1])
  }

  // ----- what every interleaving keeps

  /** The tasks whose errors have reached the channel, in order. */
  function Sent(s: State): seq<nat> {
    s.errs + s.channel
  }

  ghost predicate Distinct(ids: seq<nat>) {
    forall i, j :: 0 <= i < j < |ids| ==> ids[i] != ids[j]
  }

  predicate PhaseFits(t: Task, p: Phase) {
    (p == Sending ==> t.Fails?) && (t.RunsForever? ==> p == Running)
  }

  predicate HasSent(t: Task, p: Phase) {
    t.Fails? && (p == Returning || p == Done)
  }

  ghost predicate Inv(tasks: seq<Task>, s: State) {
    && |s.phases| == |tasks|
    && (forall i :: 0 <= i < |tasks| ==> PhaseFits(tasks[i], s.phases[i]))
    && Distinct(Sent(s)) && |s.channel| <= SLOTS
    && (forall i :: i in Sent(s) <==> 0 <= i < |tasks| && HasSent(tasks[i], s.phases[i]))
    && (s.closed ==> AllDone(s) && tasks != [])
    && (s.result == Nil ==> s.closed && s.channel == [])
    && (s.result == Errors ==> s.errs != [])
    && (s.panicked ==> tasks == [])
  }

  lemma MoveKeeps(tasks: seq<Task>, s: State, i: nat, p: Phase, s': State)
    requires Inv(tasks, s) && i < |tasks| && !s.closed
    requires PhaseFits(tasks[i], p) && s' == s.(phases := s.phases[i := p])
    requires HasSent(tasks[i], p) == HasSent(tasks[i], s.phases[i])
    ensures Inv(tasks, s')
  {
    forall j | 0 <= j < |tasks| ensures PhaseFits(tasks[j], s'.phases[j]) && (j in Sent(s') <==> HasSent(tasks[j], s'.phases[j])) {
      assert Sent(s') == Sent(s);
      assert j in Sent(s) <==> HasSent(tasks[j], s.phases[j]);
    }
  }

  lemma PushKeeps(tasks: seq<Task>, s: State, i: nat, s': State)
    requires Inv(tasks, s) && i < |tasks| && !s.closed && s.phases[i] == Sending && |s.channel| < SLOTS
    requires s' == s.(phases := s.phases[i := Returning], channel := s.channel + [i])
    ensures Inv(tasks, s')
  {
    assert Sent(s') == Sent(s) + [i];
    assert i !in Sent(s);
    forall j | 0 <= j < |tasks| ensures PhaseFits(tasks[j], s'.phases[j]) && (j in Sent(s') <==> HasSent(tasks[j], s'.phases[j])) {
      assert j in Sent(s) <==> HasSent(tasks[j], s.phases[j]);
    }
  }

  lemma PollKeeps(tasks: seq<Task>, s: State)
    requires Inv(tasks, s)
    ensures Inv(tasks, DoPoll(s))
  {
    assert Sent(DoPoll(s)) == Sent(s);
  }

  lemma DoKeeps(tasks: seq<Task>, s: State, a: Step)
    requires Inv(tasks, s)
    ensures Inv(tasks, Do(tasks, s, a))
  {
    match a
    case Close =>
    case Poll => PollKeeps(tasks, s);
    case Push(i) =>
      var s' := Do(tasks, s, a);
      if s' != s {
        PushKeeps(tasks, s, i, s');
      }
    case Finish(i) =>
      var s' := Do(tasks, s, a);
      if s' != s {
        MoveKeeps(tasks, s, i, s'.phases[i], s');
      }
    case Retire(i) =>
      var s' := Do(tasks, s, a);
      if s' != s {
        MoveKeeps(tasks, s, i, s'.phases[i], s');
      }
  }

  lemma {:induction false} RunKeeps(tasks: seq<Task>, steps: seq<Step>)
    ensures Inv(tasks, Run(tasks, steps))
  {
    if steps != [] {
      var n := |steps| - 1;
      RunKeeps(tasks, steps[..n]);
      DoKeeps(tasks, Run(tasks, steps[..n]), steps[n]);
    }
  }

  /** Wait returns nil only after every task has finished, and after it has received every error. */
  lemma NilMeansAllDone(tasks: seq<Task>, steps: seq<Step>)
    requires Run(tasks, steps).result == Nil
    ensures AllDone(Run(tasks, steps))
    ensures forall i :: 0 <= i < |tasks| ==> (i in Run(tasks, steps).errs <==> tasks[i].Fails?)
  {
    RunKeeps(tasks, steps);
    var s := Run(tasks, steps);
    assert Sent(s) == s.errs;
  }

  /** An error result is made of errors that distinct tasks returned, at least one. */
  lemma ErrorsAreReal(tasks: seq<Task>, steps: seq<Step>)
    requires Run(tasks, steps).result == Errors
    ensures var errs := Run(tasks, steps).errs;
            errs != [] && Distinct(errs) && forall i :: i in errs ==> i < |tasks| && tasks[i].Fails?
  {
    RunKeeps(tasks, steps);
    var s := Run(tasks, steps);
    forall i, j | 0 <= i < j < |s.errs| ensures s.errs[i] != s.errs[j] {
      assert Sent(s)[i] == s.errs[i] && Sent(s)[j] == s.errs[j];
    }
    forall i | i in s.errs ensures i < |tasks| && tasks[i].Fails? {
      assert i in Sent(s);
    }
  }

  /** Nothing panics in a group that was given a task: no error is sent on the closed channel. */
  lemma NoPanic(tasks: seq<Task>, steps: seq<Step>)
    requires tasks != []
    ensures !Run(tasks, steps).panicked
  {
    RunKeeps(tasks, steps);
  }

  /** A task that has failed waits at the channel exactly while ten errors are in it. */
  lemma SendBlocks(tasks: seq<Task>, steps: seq<Step>, i: nat)
    requires i < |tasks| && Run(tasks, steps).phases[i] == Sending
    ensures var s := Run(tasks, steps);
            && (Do(tasks, s, Push(i)) == s <==> |s.channel| == 10)
            && (|s.channel| < 10 ==> Do(tasks, s, Push(i)).channel == s.channel + [i])
  {
    RunKeeps(tasks, steps);
  }

  // ----- is an error returned if one or more tasks failed?

  ghost predicate SomeFails(tasks: seq<Task>) {
    exists i :: 0 <= i < |tasks| && tasks[i].Fails?
  }

  ghost predicate SomeRunsForever(tasks: seq<Task>) {
    exists i :: 0 <= i < |tasks| && tasks[i].RunsForever?
  }

  /** What the comment on Wait promises of this group, in every interleaving. */
  ghost predicate PromiseKept(tasks: seq<Task>) {
    forall steps :: Run(tasks, steps).result != Waiting ==> (Run(tasks, steps).result == Errors <==> SomeFails(tasks))
  }

  ghost predicate Reachable(tasks: seq<Task>, s: State) {
    exists steps :: Run(tasks, steps) == s
  }

  lemma RunNext(tasks: seq<Task>, steps: seq<Step>, a: Step)
    ensures Run(tasks, steps + [a]) == Do(tasks, Run(tasks, steps), a)
  {
    assert (steps + [a])[..|steps|] == steps;
  }

  lemma Reach(tasks: seq<Task>, s: State, a: Step) returns (s': State)
    requires Reachable(tasks, s) && |s.phases| == |tasks|
    ensures s' == Do(tasks, s, a) && Reachable(tasks, s')
  {
    var steps :| Run(tasks, steps) == s;
    s' := Do(tasks, s, a);
    RunNext(tasks, steps, a);
    assert Run(tasks, steps + [a]) == s';
  }

  /** The first k tasks are done, the others untouched, and an error is kept in the channel. */
  ghost predicate Served(tasks: seq<Task>, s: State, k: nat) {
    && |s.phases| == |tasks| && k <= |tasks|
    && (forall i :: 0 <= i < |tasks| ==> s.phases[i] == if i < k then Done else Running)
    && !s.closed && !s.panicked && s.result == Waiting && |s.channel| <= SLOTS
    && ((exists i :: 0 <= i < k && tasks[i].Fails?) ==> s.channel != [])
  }

  /** As `Served`, but task k has failed and finds room in the channel. */
  ghost predicate Serving(tasks: seq<Task>, s: State, k: nat) {
    && |s.phases| == |tasks| && k < |tasks|
    && (forall i :: 0 <= i < |tasks| ==> s.phases[i] == if i < k then Done else if i == k then Sending else Running)
    && !s.closed && !s.panicked && s.result == Waiting && |s.channel| < SLOTS
  }

  lemma ServeFailure(tasks: seq<Task>, s: State, k: nat) returns (s': State)
    requires Reachable(tasks, s) && Served(tasks, s, k) && k < |tasks| && tasks[k].Fails?
    ensures Reachable(tasks, s') && Serving(tasks, s', k)
  {
    s' := Reach(tasks, s, Finish(k));
    if |s'.channel| == SLOTS {
      s' := Reach(tasks, s', Poll);
    }
  }

  lemma ServeFailing(tasks: seq<Task>, s: State, k: nat) returns (s': State)
    requires Reachable(tasks, s) && Served(tasks, s, k) && k < |tasks| && tasks[k].Fails?
    ensures Reachable(tasks, s') && Served(tasks, s', k + 1)
  {
    s' := ServeFailure(tasks, s, k);
    s' := Reach(tasks, s', Push(k));
    s' := Reach(tasks, s', Retire(k));
  }

  lemma ServeSucceeding(tasks: seq<Task>, s: State, k: nat) returns (s': State)
    requires Reachable(tasks, s) && Served(tasks, s, k) && k < |tasks| && tasks[k].Succeeds?
    ensures Reachable(tasks, s') && Served(tasks, s', k + 1)
  {
    s' := Reach(tasks, s, Finish(k));
    s' := Reach(tasks, s', Retire(k));
  }

  lemma {:induction false} Serve(tasks: seq<Task>, k: nat) returns (s: State)
    requires k <= |tasks| && !SomeRunsForever(tasks)
    ensures Reachable(tasks, s) && Served(tasks, s, k)
  {
    if k == 0 {
      s := Init(tasks);
      assert Run(tasks, []) == s;
    } else {
      s := Serve(tasks, k - 1);
      if tasks[k - 1].Fails? {
        s := ServeFailing(tasks, s, k - 1);
      } else {
        s := ServeSucceeding(tasks, s, k - 1);
      }
    }
  }

  lemma {:induction false} Drain(tasks: seq<Task>, s: State) returns (s': State)
    requires Reachable(tasks, s) && |s.phases| == |tasks| && s.closed && !s.panicked && s.result == Waiting
    ensures Reachable(tasks, s') && s'.result == Nil
    decreases |s.channel|
  {
    s' := Reach(tasks, s, Poll);
    if s.channel != [] {
      s' := Drain(tasks, s');
    }
  }

  /** Where every task ends, some interleaving lets Wait return nil, whatever errors it received. */
  lemma NilIsReachable(tasks: seq<Task>) returns (s: State)
    requires tasks != [] && !SomeRunsForever(tasks)
    ensures Reachable(tasks, s) && s.result == Nil
  {
    s := Serve(tasks, |tasks|);
    s := Reach(tasks, s, Close);
    s := Drain(tasks, s);
  }

  /** The promise holds exactly for groups in which no task fails or some task never ends. */
  lemma PromiseKeptExactly(tasks: seq<Task>)
    ensures PromiseKept(tasks) <==> !SomeFails(tasks) || SomeRunsForever(tasks)
  {
    if SomeFails(tasks) && !SomeRunsForever(tasks) {
      var s := NilIsReachable(tasks);
      var steps :| Run(tasks, steps) == s;
      assert Run(tasks, steps).result == Nil;
    } else {
      forall steps | Run(tasks, steps).result != Waiting
        ensures Run(tasks, steps).result == Errors <==> SomeFails(tasks)
      {
        RunKeeps(tasks, steps);
        if Run(tasks, steps).result == Errors {
          ErrorsAreReal(tasks, steps);
          assert Run(tasks, steps).errs[0] in Run(tasks, steps).errs;
        } else {
          NilMeansAllDone(tasks, steps);
        }
      }
    }
  }

  /** The smallest failing case: a single task that fails, and its error is dropped. */
  lemma LostError(e: string)
    ensures Run([Fails(e)], [Finish(0), Push(0), Retire(0), Close, Poll, Poll]).result == Nil
  {
    var tasks := [Fails(e)];
    var steps := [Finish(0), Push(0), Retire(0), Close, Poll, Poll];
    assert steps[..0] == [] && steps[..6] == steps;
    forall n | 0 <= n < 6 ensures Run(tasks, steps[..n + 1]) == Do(tasks, Run(tasks, steps[..n]), steps[n]) {
      assert steps[..n + 1] == steps[..n] + [steps[n]];
      RunNext(tasks, steps[..n], steps[n]);
    }
    assert Run(tasks, steps[..1]) == State([Sending], [], false, [], Waiting, false);
    assert Run(tasks, steps[..2]) == State([Returning], [0], false, [], Waiting, false);
    assert Run(tasks, steps[..3]) == State([Done], [0], false, [], Waiting, false);
    assert Run(tasks, steps[..4]) == State([Done], [0], true, [], Waiting, false);
    assert Run(tasks, steps[..5]) == State([Done], [], true, [0], Waiting, false);
    assert Run(tasks, steps[..6]) == State([Done], [], true, [0], Nil, false);
  }

  // ----- what the group is for

  function Polls(s: State, n: nat): State
    decreases n
  {
    if n == 0 then s else Polls(DoPoll(s), n - 1)
  }

  /**
   While some task still runs, an error that has been sent unblocks Wait: polling returns all the
   errors that are there, after one turn for each in the channel and one more.
   */
  lemma {:induction false} ErrorUnblocks(s: State)
    requires s.result == Waiting && !s.closed && Sent(s) != []
    ensures var s' := Polls(s, |s.channel| + 1); s'.result == Errors && s'.errs == Sent(s)
    decreases |s.channel|
  {
    if s.channel != [] {
      assert Sent(DoPoll(s)) == Sent(s);
      ErrorUnblocks(DoPoll(s));
    }
  }

  // ----- the group itself

  /** The steps of the other goroutines before each turn of Wait's loop, and the turns between them. */
  function Interleaved(others: seq<seq<Step>>): seq<Step> {
    if others == [] then [] else Interleaved(others[..|others| - 1]) + others[|others| - 1] + [Poll]
  }

  function DoAll(tasks: seq<Task>, s: State, steps: seq<Step>): (s': State)
    requires |s.phases| == |tasks|
    ensures |s'.phases| == |tasks|
    decreases |steps|
  {
    if steps == [] then s else Do(tasks, DoAll(tasks, s, steps[..|steps| - 1]), steps[|steps| - 1])
  }

  lemma {:induction false} RunAppends(tasks: seq<Task>, steps: seq<Step>, more: seq<Step>)
    ensures Run(tasks, steps + more) == DoAll(tasks, Run(tasks, steps), more)
    decreases |more|
  {
    if more == [] {
      assert steps + more == steps;
    } else {
      var n := |more| - 1;
      RunAppends(tasks, steps, more[..n]);
      RunNext(tasks, steps + more[..n], more[n]);
      assert steps + more == steps + more[..n] + [more[n]];
    }
  }

  lemma InterleavedNext(tasks: seq<Task>, others: seq<seq<Step>>, k: nat)
    requires k < |others|
    ensures Run(tasks, Interleaved(others[..k + 1])) ==
            Do(tasks, DoAll(tasks, Run(tasks, Interleaved(others[..k])), others[k]), Poll)
  {
    var before := Interleaved(others[..k]);
    assert others[..k + 1][..k] == others[..k];
    RunAppends(tasks, before, others[k]);
    RunNext(tasks, before + others[k], Poll);
  }

  /** Only Wait touches its own variables, and the others do not see them. */
  lemma OthersApart(tasks: seq<Task>, s: State, a: Step, errs: seq<nat>)
    requires |s.phases| == |tasks| && a != Poll
    ensures Do(tasks, s.(errs := errs), a) == Do(tasks, s, a).(errs := errs)
    ensures Do(tasks, s, a).errs == s.errs && Do(tasks, s, a).result == s.result
    ensures |Do(tasks, s, a).phases| == |tasks|
  {
  }

  class Group {
    const tasks: seq<Task>
    var phases: seq<Phase>
    var channel: seq<nat>
    var closed: bool
    var panicked: bool

    constructor (tasks: seq<Task>)
      ensures this.tasks == tasks && View([], Waiting) == Init(tasks)
    {
      this.tasks := tasks;
      phases, channel, closed, panicked := seq(|tasks|, _ => Running), [], false, false;
    }

    function View(errs: seq<nat>, result: Result): State
      reads this
    {
      State(phases, channel, closed, errs, result, panicked)
    }

    /** The goroutines of the group move; Wait's own variables are out of their reach. */
    method Others(steps: seq<Step>, ghost errs: seq<nat>)
      requires |phases| == |tasks| && Poll !in steps
      modifies this
      ensures View(errs, Waiting) == DoAll(tasks, old(View(errs, Waiting)), steps)
    {
      for k := 0 to |steps|
        invariant |phases| == |tasks|
        invariant View(errs, Waiting) == DoAll(tasks, old(View(errs, Waiting)), steps[..k])
      {
        assert steps[..k + 1][..k] == steps[..k] && steps[k] in steps;
        OthersApart(tasks, View([], Waiting), steps[k], errs);
        var s := Do(tasks, View([], Waiting), steps[k]);
        phases, channel, closed, panicked := s.phases, s.channel, s.closed, s.panicked;
      }
      assert steps[..|steps|] == steps;
    }

    /** Wait, for as many turns of its loop as `others` has entries, or until it returns or all panics. */
    method Wait(others: seq<seq<Step>>) returns (result: Result, errs: seq<nat>, turns: nat)
      requires View([], Waiting) == Init(tasks) && forall k :: 0 <= k < |others| ==> Poll !in others[k]
      modifies this
      ensures turns <= |others| && View(errs, result) == Run(tasks, Interleaved(others[..turns]))
      ensures result == Waiting ==> turns == |others| || panicked
    {
      result, errs, turns := Waiting, [], 0;
      while turns < |others| && result == Waiting && !panicked
        invariant turns <= |others| && |phases| == |tasks|
        invariant View(errs, result) == Run(tasks, Interleaved(others[..turns]))
      {
        InterleavedNext(tasks, others, turns);
        Others(others[turns], errs);
        turns := turns + 1;
        if panicked {
          break;
        }
        if channel != [] {
          errs := errs + [channel[0]];
          channel := channel[1..];
        } else if closed {
          result := Nil;
        } else if errs != [] {
          result := Errors;
        }
      }
    }
  }
}
