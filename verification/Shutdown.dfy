/** The nested errgroups of a server: a root group with one member per listener, each of them running a
    group of its own with a serving member and a shutdown member. */
module Shutdown {
  import opened Prelude
  import opened Errors

  // ---------------------------------------------------------------- one listener

  datatype Kind = HTTP | GRPC

  /** The goroutine blocked in ListenAndServe or grpc.Server.Serve. */
  datatype Serving = Unserved | Serving | Served(err: Option<Error>)

  /** The goroutine running handleShutdown. */
  datatype Hook = Unhooked | Waiting | Draining | Forcing(cause: Error) | Hooked(err: Option<Error>)

  /** The extra goroutine in which the gRPC hook runs GracefulStop; it belongs to no group. */
  datatype Helper = Absent | Stopping | Gone

  /** The library server underneath. */
  datatype Engine = Open | Closing | Drained | Killed

  datatype Listener = Listener(
    kind: Kind,
    addr: string,
    serving: Serving,
    hook: Hook,
    helper: Helper,
    engine: Engine,
    groupErr: Option<Error>,
    returned: Option<Option<Error>>)

  datatype Config = Config(kind: Kind, addr: string)

  function NewListener(c: Config): Listener {
    Listener(c.kind, c.addr, Unserved, Unhooked, Absent, Open, None, None)
  }

  /** The moves of one listener. ServeFails, HelperEnds and, over HTTP, DrainEnds are up to the
      environment; the others happen by themselves once they are possible. */
  datatype Move =
    | Start
    | ServeFails(e: Error)
    | ServeStops
    | Observe
    | HelperEnds
    | DrainEnds
    | TimesOut(cause: Error)
    | Force
    | Return

  /** The listener's own context: cancelled from above, by its first failing member, or by its Wait. */
  predicate ContextDone(l: Listener, above: bool) {
    above || l.groupErr.Some? || l.returned.Some?
  }

  predicate CanMove(l: Listener, above: bool, m: Move) {
    match m
    case Start => l.serving.Unserved? && l.hook.Unhooked? && l.returned.None?
    case ServeFails(_) => l.serving.Serving?
    case ServeStops => l.serving.Serving? && (if l.kind.HTTP? then !l.engine.Open? else l.engine.Drained? || l.engine.Killed?)
    case Observe => l.hook.Waiting? && ContextDone(l, above)
    case HelperEnds => l.helper.Stopping?
    case DrainEnds => l.hook.Draining? && (l.kind.HTTP? || l.helper.Gone?)
    case TimesOut(cause) => l.hook.Draining? && (l.kind.HTTP? || cause == Sentinel(DeadlineExceeded))
    case Force => l.hook.Forcing?
    case Return => l.serving.Served? && l.hook.Hooked? && l.returned.None?
  }

  /** errgroup: only the first non-nil error is kept. */
  function FirstOf(kept: Option<Error>, err: Option<Error>): Option<Error> {
    if kept.Some? then kept else err
  }

  function ForcedStop(cause: Error): Error {
    Joined([Sentinel(GracefullyShutdown), cause])
  }

  function MoveOf(l: Listener, m: Move): Listener {
    match m
    case Start =>
      if l.kind.HTTP? && l.addr == "" then l.(returned := Some(Some(Plain("invalid listener address"))))
      else l.(serving := Serving, hook := Waiting)
    case ServeFails(e) =>
      var err := Some(Wrapped("listener failed", e));
      l.(serving := Served(err), groupErr := FirstOf(l.groupErr, err))
    case ServeStops => l.(serving := Served(None))
    case Observe => l.(hook := Draining, engine := Closing, helper := if l.kind.GRPC? then Stopping else Absent)
    case HelperEnds => l.(helper := Gone, engine := if l.engine.Killed? then Killed else Drained)
    case DrainEnds => l.(hook := Hooked(None), engine := Drained)
    case TimesOut(cause) => l.(hook := Forcing(cause))
    case Force =>
      var err := if l.hook.Forcing? then Some(ForcedStop(l.hook.cause)) else None;
      l.(hook := Hooked(err), engine := Killed, groupErr := FirstOf(l.groupErr, err))
    case Return => l.(returned := Some(l.groupErr))
  }

  predicate Refused(l: Listener) {
    l.kind.HTTP? && l.addr == ""
  }

  /** What holds of one listener at any time, given whether the context above it is done. */
  predicate ListenerInv(l: Listener, above: bool) {
    && (l.serving.Unserved? <==> l.hook.Unhooked?)
    && (l.serving.Unserved? ==> l.engine.Open? && l.groupErr.None?)
    && (l.returned.Some? ==>
          if Refused(l) then l.serving.Unserved? && l.returned.value.Some?
          else l.serving.Served? && l.hook.Hooked? && l.returned.value == l.groupErr)
    && (Refused(l) ==> l.serving.Unserved?)
    && (l.groupErr.Some? <==> (l.serving.Served? && l.serving.err.Some?) || (l.hook.Hooked? && l.hook.err.Some?))
    && (l.groupErr.Some? ==> (l.serving.Served? && l.groupErr == l.serving.err) || (l.hook.Hooked? && l.groupErr == l.hook.err))
    && (l.hook.Unhooked? || l.hook.Waiting? ==> l.engine.Open?)
    && (l.hook.Draining? || l.hook.Forcing? || l.hook.Hooked? ==> (above || l.groupErr.Some?) && !l.engine.Open?)
    && (l.hook.Hooked? ==> if l.hook.err.Some? then l.engine.Killed? else l.engine.Drained?)
    && (l.helper.Gone? ==> l.engine.Drained? || l.engine.Killed?)
    && (l.serving.Served? && l.serving.err.None? ==>
          !l.engine.Open? && (l.kind.GRPC? ==> l.engine.Drained? || l.engine.Killed?))
    && (l.helper.Absent? <==> l.kind.HTTP? || l.hook.Unhooked? || l.hook.Waiting?)
    && (l.kind.GRPC? && l.hook.Hooked? && l.hook.err.None? ==> l.helper.Gone?)
  }

  lemma MoveKeepsListenerInv(l: Listener, above: bool, m: Move)
    requires ListenerInv(l, above) && CanMove(l, above, m)
    ensures ListenerInv(MoveOf(l, m), above)
  {
  }

  function ListenerRank(l: Listener): nat {
    (match l.serving case Unserved => 2 case Serving => 1 case Served(_) => 0)
    + (match l.hook case Unhooked => 5 case Waiting => 4 case Draining => 2 case Forcing(_) => 1 case Hooked(_) => 0)
    + (match l.helper case Absent => 0 case Stopping => 1 case Gone => 0)
    + (if l.returned.None? then 1 else 0)
  }

  lemma MovesLowerRank(l: Listener, above: bool, m: Move)
    requires ListenerInv(l, above) && CanMove(l, above, m)
    ensures ListenerRank(MoveOf(l, m)) < ListenerRank(l)
  {
  }

  /** The moves nobody has to be waited for: a stuck drain is cut short by TimesOut. */
  predicate Forced(l: Listener, m: Move) {
    m.Start? || m.ServeStops? || m.Observe? || m == TimesOut(Sentinel(DeadlineExceeded)) || m.Force? || m.Return?
  }

  /** Once its context is done, a listener that has not returned can always take a forced move. */
  lemma CancelledListenerMoves(l: Listener, above: bool)
    requires ListenerInv(l, above) && ContextDone(l, above) && l.returned.None?
    ensures exists m :: Forced(l, m) && CanMove(l, above, m)
  {
    var m := if l.serving.Unserved? then Start
             else if l.hook.Waiting? then Observe
             else if l.hook.Draining? then TimesOut(Sentinel(DeadlineExceeded))
             else if l.hook.Forcing? then Force
             else if l.serving.Serving? then ServeStops
             else Return;
    assert Forced(l, m) && CanMove(l, above, m);
  }

  // ---------------------------------------------------------------- the root group

  /** log lists the listeners in the order in which their members of the root group finished, each with
      what its Serve had returned; rootErr is the root group's kept error. */
  datatype Tree = Tree(
    parentDone: bool,
    listeners: seq<Listener>,
    log: seq<(nat, Option<Error>)>,
    rootErr: Option<Error>,
    result: Option<Option<Error>>)

  datatype Step =
    | Cancel
    | Inner(i: nat, move: Move)
    | Record(i: nat)
    | Finish

  predicate RootDone(t: Tree) {
    t.parentDone || t.rootErr.Some? || t.result.Some?
  }

  predicate Recorded(t: Tree, i: nat) {
    exists k :: 0 <= k < |t.log| && t.log[k].0 == i
  }

  predicate CanStep(t: Tree, s: Step) {
    match s
    case Cancel => !t.parentDone
    case Inner(i, m) => i < |t.listeners| && CanMove(t.listeners[i], RootDone(t), m)
    case Record(i) => i < |t.listeners| && t.listeners[i].returned.Some? && !Recorded(t, i)
    case Finish => |t.log| == |t.listeners| && t.result.None?
  }

  /** The error a root member reports: the listener's own, wrapped with its name. */
  function Reported(returned: Option<Error>): Option<Error> {
    if returned.Some? then Some(Wrapped("listener failed", returned.value)) else None
  }

  function StepOf(t: Tree, s: Step): Tree
    requires CanStep(t, s)
  {
    match s
    case Cancel => t.(parentDone := true)
    case Inner(i, m) => t.(listeners := t.listeners[i := MoveOf(t.listeners[i], m)])
    case Record(i) =>
      var err := Reported(t.listeners[i].returned.value);
      t.(log := t.log + [(i, err)], rootErr := FirstOf(t.rootErr, err))
    case Finish => t.(result := Some(t.rootErr))
  }

  function NewTree(configs: seq<Config>): Tree {
    Tree(false, seq(|configs|, i requires 0 <= i < |configs| => NewListener(configs[i])), [], None, None)
  }

  /** The first non-nil error of a completion log. */
  function FirstError(log: seq<(nat, Option<Error>)>): Option<Error> {
    if log == [] then None
    else if log[0].1.Some? then log[0].1
    else FirstError(log[1..])
  }

  lemma {:induction false} FirstErrorAppend(log: seq<(nat, Option<Error>)>, entry: (nat, Option<Error>))
    ensures FirstError(log + [entry]) == FirstOf(FirstError(log), entry.1)
  {
    if log == [] {
      assert FirstError([entry]) == FirstOf(None, entry.1);
    } else {
      assert (log + [entry])[1..] == log[1..] + [entry];
      FirstErrorAppend(log[1..], entry);
    }
  }

  lemma {:induction false} FirstErrorNone(log: seq<(nat, Option<Error>)>)
    ensures FirstError(log).None? <==> forall k :: 0 <= k < |log| ==> log[k].1.None?
  {
    if log != [] {
      FirstErrorNone(log[1..]);
      assert forall k :: 1 <= k < |log| ==> log[k] == log[1..][k - 1];
      assert forall k :: 0 <= k < |log| - 1 ==> log[1..][k] == log[k + 1];
    }
  }

  ghost predicate LogInv(t: Tree) {
    && (forall k :: 0 <= k < |t.log| ==>
          && t.log[k].0 < |t.listeners|
          && t.listeners[t.log[k].0].returned.Some?
          && t.log[k].1 == Reported(t.listeners[t.log[k].0].returned.value))
    && (forall j, k :: 0 <= j < k < |t.log| ==> t.log[j].0 != t.log[k].0)
  }

  ghost predicate Inv(t: Tree) {
    && (forall i :: 0 <= i < |t.listeners| ==> ListenerInv(t.listeners[i], RootDone(t)))
    && LogInv(t)
    && t.rootErr == FirstError(t.log)
    && (t.result.Some? ==> |t.log| == |t.listeners| && t.result.value == t.rootErr)
  }

  lemma MovesKeepReturned(l: Listener, above: bool, m: Move)
    requires ListenerInv(l, above) && CanMove(l, above, m) && l.returned.Some?
    ensures MoveOf(l, m).returned == l.returned
  {
  }

  lemma CancellationKeepsListeners(ls: seq<Listener>, above: bool)
    requires forall i :: 0 <= i < |ls| ==> ListenerInv(ls[i], above)
    ensures forall i :: 0 <= i < |ls| ==> ListenerInv(ls[i], true)
  {
  }

  lemma MoveKeepsInv(t: Tree, i: nat, m: Move)
    requires Inv(t) && CanStep(t, Inner(i, m))
    ensures Inv(StepOf(t, Inner(i, m)))
  {
    MoveKeepsListenerInv(t.listeners[i], RootDone(t), m);
    if t.listeners[i].returned.Some? {
      MovesKeepReturned(t.listeners[i], RootDone(t), m);
    }
  }

  lemma RecordKeepsInv(t: Tree, i: nat)
    requires Inv(t) && CanStep(t, Record(i))
    ensures Inv(StepOf(t, Record(i)))
  {
    FirstErrorAppend(t.log, (i, Reported(t.listeners[i].returned.value)));
    CancellationKeepsListeners(t.listeners, RootDone(t));
    assert LogInv(StepOf(t, Record(i)));
    LogBounded(StepOf(t, Record(i)));
  }

  lemma StepKeepsInv(t: Tree, s: Step)
    requires Inv(t) && CanStep(t, s)
    ensures Inv(StepOf(t, s))
  {
    match s
    case Inner(i, m) => MoveKeepsInv(t, i, m);
    case Record(i) => RecordKeepsInv(t, i);
    case _ => CancellationKeepsListeners(t.listeners, RootDone(t));
  }

  /** A log of distinct listeners is no longer than the list of listeners. */
  lemma LogBounded(t: Tree)
    requires LogInv(t)
    ensures |t.log| <= |t.listeners|
    ensures |t.log| == |t.listeners| ==> forall i :: 0 <= i < |t.listeners| ==> Recorded(t, i)
  {
    var ids := set k | 0 <= k < |t.log| :: t.log[k].0;
    var all := Below(|t.listeners|);
    IdsAreDistinct(t.log);
    assert ids <= all;
    SubsetSize(ids, all);
    if |t.log| == |t.listeners| {
      assert ids == all;
      forall i | 0 <= i < |t.listeners| ensures Recorded(t, i) {
        assert i in ids;
      }
    }
  }

  lemma {:induction false} IdsAreDistinct(log: seq<(nat, Option<Error>)>)
    requires forall j, k :: 0 <= j < k < |log| ==> log[j].0 != log[k].0
    ensures |set k | 0 <= k < |log| :: log[k].0| == |log|
  {
    if log != [] {
      var n := |log| - 1;
      IdsAreDistinct(log[..n]);
      var before := set k | 0 <= k < n :: log[..n][k].0;
      assert (set k | 0 <= k < |log| :: log[k].0) == before + {log[n].0} by {
        assert forall k :: 0 <= k < n ==> log[..n][k] == log[k];
      }
    }
  }

  ghost function Below(n: nat): (r: set<nat>)
    ensures |r| == n && forall i: nat :: i in r <==> i < n
  {
    if n == 0 then {} else Below(n - 1) + {n - 1}
  }

  lemma SubsetSize(a: set<nat>, b: set<nat>)
    requires a <= b
    ensures |a| <= |b| && (|a| == |b| ==> a == b)
  {
    assert b == a + (b - a);
  }

  // ---------------------------------------------------------------- runs of the whole tree

  ghost predicate Run(trees: seq<Tree>, steps: seq<Step>) {
    && |trees| == |steps| + 1
    && forall k :: 0 <= k < |steps| ==> CanStep(trees[k], steps[k]) && trees[k + 1] == StepOf(trees[k], steps[k])
  }

  lemma NewTreeInv(configs: seq<Config>)
    ensures Inv(NewTree(configs))
  {
  }

  lemma {:induction false} RunKeepsInv(trees: seq<Tree>, steps: seq<Step>, n: nat)
    requires Run(trees, steps) && n < |trees| && Inv(trees[0])
    ensures Inv(trees[n]) && |trees[n].listeners| == |trees[0].listeners|
  {
    if n > 0 {
      RunKeepsInv(trees, steps, n - 1);
      StepKeepsInv(trees[n - 1], steps[n - 1]);
    }
  }

  /** What the environment may do at any time: a server that is serving can fail with any error, a drain can
      time out, and it can end once nothing holds it up any more. */
  lemma EnvironmentIsFree(l: Listener, above: bool, e: Error)
    requires ListenerInv(l, above)
    ensures l.serving.Serving? ==> CanMove(l, above, ServeFails(e))
    ensures l.hook.Draining? ==> CanMove(l, above, TimesOut(Sentinel(DeadlineExceeded)))
    ensures l.hook.Draining? && l.kind.HTTP? ==> CanMove(l, above, TimesOut(e)) && CanMove(l, above, DrainEnds)
    ensures l.hook.Draining? && l.kind.GRPC? ==>
              CanMove(l, above, if l.helper.Gone? then DrainEnds else HelperEnds)
  {
  }

  /** Both members of the listener's group have finished, or its Serve refused to start any. */
  predicate Finished(l: Listener) {
    l.returned.Some? && (Refused(l) || (l.serving.Served? && l.hook.Hooked?))
  }

  ghost predicate Complete(t: Tree) {
    && (forall i :: 0 <= i < |t.listeners| ==> Finished(t.listeners[i]) && Recorded(t, i))
    && t.result == Some(FirstError(t.log))
    && (t.result.value.None? <==> forall i :: 0 <= i < |t.listeners| ==> t.listeners[i].returned.value.None?)
  }

  lemma ResultIsComplete(t: Tree)
    requires Inv(t) && t.result.Some?
    ensures Complete(t)
  {
    LogBounded(t);
    FirstErrorNone(t.log);
    forall i | 0 <= i < |t.listeners| ensures Finished(t.listeners[i]) && Recorded(t, i) {
      assert Recorded(t, i);
    }
    if t.result.value.None? {
      forall i | 0 <= i < |t.listeners| ensures t.listeners[i].returned.value.None? {
        assert Recorded(t, i);
        var k :| 0 <= k < |t.log| && t.log[k].0 == i;
        assert t.log[k].1.None?;
      }
    }
  }

  /** When the root Serve returns, under any schedule, every listener has returned with both of its
      members finished; the result is the first non-nil error in completion order, and it is nil exactly
      when every listener returned nil. */
  lemma ServeReturnsLast(configs: seq<Config>, trees: seq<Tree>, steps: seq<Step>, n: nat)
    requires Run(trees, steps) && n < |trees| && trees[0] == NewTree(configs) && trees[n].result.Some?
    ensures |trees[n].listeners| == |configs| && Complete(trees[n])
  {
    NewTreeInv(configs);
    RunKeepsInv(trees, steps, n);
    ResultIsComplete(trees[n]);
  }

  /** The shared context ends in one of three ways: the caller cancels it, a listener whose own Serve has
      already returned an error is recorded, or everybody has finished. */
  lemma SiblingsCancelledLast(t: Tree, s: Step)
    requires Inv(t) && CanStep(t, s) && !t.parentDone && !SomeFailed(t) && t.result.None?
    requires var t' := StepOf(t, s); t'.parentDone || SomeFailed(t') || t'.result.Some?
    ensures || s.Cancel?
            || (s.Record? && Finished(t.listeners[s.i]) && t.listeners[s.i].returned.value.Some?)
            || (s.Finish? && forall i :: 0 <= i < |t.listeners| ==> Finished(t.listeners[i]))
  {
    if s.Finish? {
      LogBounded(t);
      forall i | 0 <= i < |t.listeners| ensures Finished(t.listeners[i]) {
        assert Recorded(t, i);
      }
    }
  }

  /** Some listener has been recorded with an error. */
  ghost predicate SomeFailed(t: Tree) {
    exists k :: 0 <= k < |t.log| && t.log[k].1.Some?
  }

  lemma DoneIff(t: Tree)
    requires Inv(t)
    ensures RootDone(t) <==> t.parentDone || SomeFailed(t) || t.result.Some?
  {
    FirstErrorNone(t.log);
  }

  lemma WaitingMeansRunning(t: Tree, i: nat)
    requires Inv(t) && i < |t.listeners| && t.listeners[i].hook.Waiting?
    ensures t.result.None?
  {
    if t.result.Some? {
      ResultIsComplete(t);
      assert false;
    }
  }

  /** A listener that serves begins its shutdown when the caller cancels, when a sibling has been recorded
      with an error, or when its own server has failed, and for no other reason. */
  lemma ShutsDownIff(t: Tree, i: nat)
    requires Inv(t) && i < |t.listeners| && t.listeners[i].hook.Waiting?
    ensures CanStep(t, Inner(i, Observe)) <==>
            || t.parentDone
            || SomeFailed(t)
            || (t.listeners[i].serving.Served? && t.listeners[i].serving.err.Some?)
  {
    DoneIff(t);
    assert ListenerInv(t.listeners[i], RootDone(t));
    WaitingMeansRunning(t, i);
  }

  /** While the shared context is alive, a listener shuts down only because one of its own members failed. */
  lemma ShutdownHasCause(trees: seq<Tree>, steps: seq<Step>, n: nat, i: nat)
    requires Run(trees, steps) && n < |trees| && Inv(trees[0]) && i < |trees[n].listeners|
    requires !trees[n].listeners[i].engine.Open?
    requires !trees[n].parentDone && !SomeFailed(trees[n]) && trees[n].result.None?
    ensures trees[n].listeners[i].groupErr.Some?
  {
    RunKeepsInv(trees, steps, n);
    DoneIff(trees[n]);
  }

  // ---------------------------------------------------------------- termination

  function ListenersRank(ls: seq<Listener>): nat {
    if ls == [] then 0 else ListenerRank(ls[0]) + ListenersRank(ls[1..])
  }

  lemma {:induction false} ListenersRankUpdate(ls: seq<Listener>, i: nat, l: Listener)
    requires i < |ls|
    ensures ListenersRank(ls[i := l]) + ListenerRank(ls[i]) == ListenersRank(ls) + ListenerRank(l)
  {
    if i == 0 {
      assert ls[i := l][1..] == ls[1..];
    } else {
      ListenersRankUpdate(ls[1..], i - 1, l);
      assert ls[i := l][1..] == ls[1..][i - 1 := l];
    }
  }

  function Rank(t: Tree): int {
    ListenersRank(t.listeners) + (|t.listeners| - |t.log|)
    + (if t.parentDone then 0 else 1) + (if t.result.None? then 1 else 0)
  }

  /** Every step of the tree lowers its rank, so every schedule is finite. */
  lemma StepsLowerRank(t: Tree, s: Step)
    requires Inv(t) && CanStep(t, s)
    ensures 0 <= Rank(StepOf(t, s)) < Rank(t)
  {
    StepKeepsInv(t, s);
    LogBounded(StepOf(t, s));
    if s.Inner? {
      MovesLowerRank(t.listeners[s.i], RootDone(t), s.move);
      ListenersRankUpdate(t.listeners, s.i, MoveOf(t.listeners[s.i], s.move));
    }
  }

  /** A step that waits for nobody: forced moves of listeners, and the bookkeeping of the root group. */
  predicate ForcedStep(t: Tree, s: Step) {
    match s
    case Cancel => false
    case Inner(i, m) => i < |t.listeners| && Forced(t.listeners[i], m)
    case Record(_) => true
    case Finish => true
  }

  /** Once the caller has cancelled or a listener has failed, the tree always has a forced step left until
      Serve returns: no connection that refuses to drain can hold it up. */
  lemma CancelledTreeSteps(t: Tree)
    requires Inv(t) && (t.parentDone || SomeFailed(t)) && t.result.None?
    ensures exists s :: ForcedStep(t, s) && CanStep(t, s)
  {
    DoneIff(t);
    if i :| 0 <= i < |t.listeners| && t.listeners[i].returned.None? {
      CancelledListenerMoves(t.listeners[i], RootDone(t));
      var m :| Forced(t.listeners[i], m) && CanMove(t.listeners[i], RootDone(t), m);
      assert ForcedStep(t, Inner(i, m)) && CanStep(t, Inner(i, m));
    } else if i :| 0 <= i < |t.listeners| && !Recorded(t, i) {
      assert ForcedStep(t, Record(i)) && CanStep(t, Record(i));
    } else {
      AllRecorded(t);
      assert ForcedStep(t, Finish) && CanStep(t, Finish);
    }
  }

  lemma AllRecorded(t: Tree)
    requires LogInv(t) && forall i :: 0 <= i < |t.listeners| ==> Recorded(t, i)
    ensures |t.log| == |t.listeners|
  {
    LogBounded(t);
    var ids := set k | 0 <= k < |t.log| :: t.log[k].0;
    IdsAreDistinct(t.log);
    forall i | i in Below(|t.listeners|) ensures i in ids {
      assert Recorded(t, i);
    }
    SubsetSize(Below(|t.listeners|), ids);
  }

  lemma StaysCancelled(t: Tree, s: Step)
    requires CanStep(t, s) && (t.parentDone || SomeFailed(t))
    ensures StepOf(t, s).parentDone || SomeFailed(StepOf(t, s))
  {
    if SomeFailed(t) {
      var k :| 0 <= k < |t.log| && t.log[k].1.Some?;
      assert StepOf(t, s).log[k] == t.log[k];
    }
  }

  /** Left to its forced steps alone, a cancelled tree returns. */
  lemma {:induction false} CancelledTreeReturns(t: Tree) returns (trees: seq<Tree>, steps: seq<Step>)
    requires Inv(t) && (t.parentDone || SomeFailed(t))
    ensures Run(trees, steps) && trees[0] == t && trees[|steps|].result.Some?
    ensures forall k :: 0 <= k < |steps| ==> ForcedStep(trees[k], steps[k])
    decreases Rank(t)
  {
    if t.result.Some? {
      return [t], [];
    }
    CancelledTreeSteps(t);
    var s :| ForcedStep(t, s) && CanStep(t, s);
    StepsLowerRank(t, s);
    StepKeepsInv(t, s);
    StaysCancelled(t, s);
    var rest, more := CancelledTreeReturns(StepOf(t, s));
    trees, steps := [t] + rest, [s] + more;
  }

  // ---------------------------------------------------------------- when the result is nil

  /** The listener is on its way to an error: a member has failed or its drain was cut short. */
  predicate Tainted(l: Listener) {
    l.groupErr.Some? || l.hook.Forcing?
  }

  predicate Faulty(s: Step, i: nat) {
    s.Inner? && s.i == i && (s.move.ServeFails? || s.move.TimesOut?)
  }

  lemma MoveTaints(l: Listener, above: bool, m: Move)
    requires ListenerInv(l, above) && CanMove(l, above, m)
    ensures MoveOf(l, m).kind == l.kind && MoveOf(l, m).addr == l.addr
    ensures Tainted(MoveOf(l, m)) <==> Tainted(l) || m.ServeFails? || m.TimesOut?
  {
  }

  ghost predicate FaultBefore(steps: seq<Step>, n: nat, i: nat)
    requires n <= |steps|
  {
    exists k :: 0 <= k < n && Faulty(steps[k], i)
  }

  lemma FaultBeforeNext(steps: seq<Step>, n: nat, i: nat)
    requires n < |steps|
    ensures FaultBefore(steps, n + 1, i) <==> FaultBefore(steps, n, i) || Faulty(steps[n], i)
  {
  }

  lemma StepTaints(t: Tree, s: Step, i: nat)
    requires Inv(t) && CanStep(t, s) && i < |t.listeners|
    ensures var l, l' := t.listeners[i], StepOf(t, s).listeners[i];
            l'.kind == l.kind && l'.addr == l.addr && (Tainted(l') <==> Tainted(l) || Faulty(s, i))
  {
    if s.Inner? && s.i == i {
      MoveTaints(t.listeners[i], RootDone(t), s.move);
    }
  }

  lemma {:induction false} TaintedByFaults(configs: seq<Config>, trees: seq<Tree>, steps: seq<Step>, n: nat, i: nat)
    requires Run(trees, steps) && n < |trees| && trees[0] == NewTree(configs) && i < |configs|
    ensures |trees[n].listeners| == |configs|
    ensures trees[n].listeners[i].kind == configs[i].kind && trees[n].listeners[i].addr == configs[i].addr
    ensures Tainted(trees[n].listeners[i]) <==> FaultBefore(steps, n, i)
  {
    if n > 0 {
      TaintedByFaults(configs, trees, steps, n - 1, i);
      NewTreeInv(configs);
      RunKeepsInv(trees, steps, n - 1);
      StepTaints(trees[n - 1], steps[n - 1], i);
      FaultBeforeNext(steps, n - 1, i);
    }
  }

  /** Listener i had an address if it needed one, never failed to serve, and always drained in time. */
  ghost predicate Graceful(configs: seq<Config>, steps: seq<Step>, i: nat)
    requires i < |configs|
  {
    && !(configs[i].kind.HTTP? && configs[i].addr == "")
    && forall k :: 0 <= k < |steps| ==> !Faulty(steps[k], i)
  }

  /** A completed run answers nil exactly when it was graceful for every listener. */
  lemma NilMeansGraceful(configs: seq<Config>, trees: seq<Tree>, steps: seq<Step>)
    requires Run(trees, steps) && trees[0] == NewTree(configs) && trees[|steps|].result.Some?
    ensures trees[|steps|].result.value.None? <==> forall i :: 0 <= i < |configs| ==> Graceful(configs, steps, i)
  {
    var n := |steps|;
    var t := trees[n];
    NewTreeInv(configs);
    RunKeepsInv(trees, steps, n);
    ServeReturnsLast(configs, trees, steps, n);
    forall i | 0 <= i < |configs|
      ensures Finished(t.listeners[i]) && (t.listeners[i].returned.value.None? <==> Graceful(configs, steps, i))
    {
      TaintedByFaults(configs, trees, steps, n, i);
      assert Finished(t.listeners[i]);
    }
  }

  // ---------------------------------------------------------------- draining in time

  /** The moves of a listener whose server does not fail and whose connections drain in time. */
  predicate Orderly(m: Move) {
    m.Start? || m.ServeStops? || m.Observe? || m.HelperEnds? || m.DrainEnds? || m.Return?
  }

  predicate OrderlyStep(s: Step) {
    s.Cancel? || s.Record? || s.Finish? || (s.Inner? && Orderly(s.move))
  }

  /** Nothing has gone wrong with the listener so far. */
  predicate Sound(l: Listener) {
    !Refused(l) && !Tainted(l)
  }

  lemma SoundListenerMoves(l: Listener, above: bool)
    requires ListenerInv(l, above) && above && Sound(l) && l.returned.None?
    ensures exists m :: Orderly(m) && CanMove(l, above, m)
  {
    var m := if l.serving.Unserved? then Start
             else if l.hook.Waiting? then Observe
             else if l.helper.Stopping? then HelperEnds
             else if l.hook.Draining? then DrainEnds
             else if l.serving.Serving? then ServeStops
             else Return;
    assert Orderly(m) && CanMove(l, above, m);
  }

  ghost predicate AllSound(t: Tree) {
    forall i :: 0 <= i < |t.listeners| ==> Sound(t.listeners[i])
  }

  lemma OrderlyKeepsSound(t: Tree, s: Step)
    requires Inv(t) && CanStep(t, s) && OrderlyStep(s) && AllSound(t)
    ensures AllSound(StepOf(t, s))
  {
    forall i | 0 <= i < |t.listeners| ensures Sound(StepOf(t, s).listeners[i]) {
      StepTaints(t, s, i);
    }
  }

  /** A cancelled tree in which nothing has gone wrong can go on in good order until it returns. */
  lemma OrderlyTreeSteps(t: Tree)
    requires Inv(t) && t.parentDone && AllSound(t) && t.result.None?
    ensures exists s :: OrderlyStep(s) && CanStep(t, s)
  {
    if i :| 0 <= i < |t.listeners| && t.listeners[i].returned.None? {
      SoundListenerMoves(t.listeners[i], RootDone(t));
      var m :| Orderly(m) && CanMove(t.listeners[i], RootDone(t), m);
      assert OrderlyStep(Inner(i, m)) && CanStep(t, Inner(i, m));
    } else if i :| 0 <= i < |t.listeners| && !Recorded(t, i) {
      assert OrderlyStep(Record(i)) && CanStep(t, Record(i));
    } else {
      AllRecorded(t);
      assert OrderlyStep(Finish) && CanStep(t, Finish);
    }
  }

  /** If nothing has gone wrong when the caller cancels, and every connection then drains in time, Serve
      returns, and it returns nil. */
  lemma {:induction false} OrderlyTreeReturnsNil(t: Tree) returns (trees: seq<Tree>, steps: seq<Step>)
    requires Inv(t) && t.parentDone && AllSound(t)
    ensures Run(trees, steps) && trees[0] == t && trees[|steps|].result == Some(None)
    ensures forall k :: 0 <= k < |steps| ==> OrderlyStep(steps[k])
    decreases Rank(t)
  {
    if t.result.Some? {
      ResultIsComplete(t);
      forall i | 0 <= i < |t.listeners| ensures t.listeners[i].returned.value.None? {
        assert Finished(t.listeners[i]) && ListenerInv(t.listeners[i], RootDone(t)) && Sound(t.listeners[i]);
      }
      return [t], [];
    }
    OrderlyTreeSteps(t);
    var s :| OrderlyStep(s) && CanStep(t, s);
    StepsLowerRank(t, s);
    StepKeepsInv(t, s);
    OrderlyKeepsSound(t, s);
    var rest, more := OrderlyTreeReturnsNil(StepOf(t, s));
    trees, steps := [t] + rest, [s] + more;
  }

  // ---------------------------------------------------------------- which error is returned

  /** Why the drain of listener i was last cut short. */
  function CauseOf(steps: seq<Step>, n: nat, i: nat): Option<Error>
    requires n <= |steps|
  {
    if n == 0 then None
    else if CutsShort(steps[n - 1], i) then Some(steps[n - 1].move.cause)
    else CauseOf(steps, n - 1, i)
  }

  /** What a move reports to the group: a server that fails, or a drain that was cut short for this cause
      and has now been ended by force. */
  function ReportOf(m: Move, cause: Option<Error>): seq<Error> {
    match m
    case ServeFails(e) => [Wrapped("listener failed", e)]
    case Force => if cause.Some? then [Joined([Sentinel(GracefullyShutdown), cause.value])] else []
    case _ => []
  }

  /** What the members of listener i have reported so far, in order. */
  function Reports(steps: seq<Step>, n: nat, i: nat): seq<Error>
    requires n <= |steps|
  {
    if n == 0 then []
    else
      var s := steps[n - 1];
      Reports(steps, n - 1, i) + if s.Inner? && s.i == i then ReportOf(s.move, CauseOf(steps, n - 1, i)) else []
  }

  function First(reports: seq<Error>): Option<Error> {
    if reports == [] then None else Some(reports[0])
  }

  /** A listener's group keeps the first error its members report, and the cause of a forced stop is that of
      the drain that was cut short. */
  predicate KeepsFirst(l: Listener, reports: seq<Error>, cause: Option<Error>) {
    && l.groupErr == First(reports)
    && (l.hook.Forcing? ==> cause == Some(l.hook.cause))
    && (l.kind.GRPC? && cause.Some? ==> cause == Some(Sentinel(DeadlineExceeded)))
  }

  lemma MoveKeepsFirst(l: Listener, above: bool, m: Move, reports: seq<Error>, cause: Option<Error>)
    requires ListenerInv(l, above) && CanMove(l, above, m) && KeepsFirst(l, reports, cause)
    ensures KeepsFirst(MoveOf(l, m), reports + ReportOf(m, cause), if m.TimesOut? then Some(m.cause) else cause)
  {
  }

  lemma StepKeepsFirst(t: Tree, steps: seq<Step>, n: nat, i: nat)
    requires n < |steps| && Inv(t) && CanStep(t, steps[n]) && i < |t.listeners|
    requires KeepsFirst(t.listeners[i], Reports(steps, n, i), CauseOf(steps, n, i))
    ensures KeepsFirst(StepOf(t, steps[n]).listeners[i], Reports(steps, n + 1, i), CauseOf(steps, n + 1, i))
  {
    var s := steps[n];
    if s.Inner? && s.i == i {
      MoveKeepsFirst(t.listeners[i], RootDone(t), s.move, Reports(steps, n, i), CauseOf(steps, n, i));
    } else {
      assert Reports(steps, n + 1, i) == Reports(steps, n, i) + [];
    }
  }

  lemma {:induction false} GroupKeepsFirst(configs: seq<Config>, trees: seq<Tree>, steps: seq<Step>, n: nat, i: nat)
    requires Run(trees, steps) && n < |trees| && trees[0] == NewTree(configs) && i < |configs|
    ensures |trees[n].listeners| == |configs| && KeepsFirst(trees[n].listeners[i], Reports(steps, n, i), CauseOf(steps, n, i))
  {
    NewTreeInv(configs);
    RunKeepsInv(trees, steps, n);
    if n > 0 {
      GroupKeepsFirst(configs, trees, steps, n - 1, i);
      RunKeepsInv(trees, steps, n - 1);
      StepKeepsFirst(trees[n - 1], steps, n - 1, i);
    }
  }

  /** What listener i has to return: the complaint about a missing address, or its first report. */
  function Due(configs: seq<Config>, steps: seq<Step>, n: nat, i: nat): Option<Error>
    requires n <= |steps| && i < |configs|
  {
    if configs[i] == Config(HTTP, "") then Some(Plain("invalid listener address")) else First(Reports(steps, n, i))
  }

  /** Every listener returns exactly what is due: the first error that one of its two members reported,
      with its payload, nil if there was none. */
  lemma ListenerReturnsFirst(configs: seq<Config>, trees: seq<Tree>, steps: seq<Step>, n: nat, i: nat)
    requires Run(trees, steps) && n < |trees| && trees[0] == NewTree(configs) && i < |configs|
    ensures |trees[n].listeners| == |configs|
    ensures trees[n].listeners[i].returned.Some? ==> trees[n].listeners[i].returned == Some(Due(configs, steps, n, i))
  {
    GroupKeepsFirst(configs, trees, steps, n, i);
    TaintedByFaults(configs, trees, steps, n, i);
    NewTreeInv(configs);
    RunKeepsInv(trees, steps, n);
    RefusalText(configs, trees, steps, n, i);
    assert ListenerInv(trees[n].listeners[i], RootDone(trees[n]));
  }

  lemma MoveRefuses(l: Listener, above: bool, m: Move)
    requires ListenerInv(l, above) && CanMove(l, above, m) && Refused(l)
    ensures MoveOf(l, m).returned == Some(Some(Plain("invalid listener address")))
  {
  }

  lemma {:induction false} RefusalText(configs: seq<Config>, trees: seq<Tree>, steps: seq<Step>, n: nat, i: nat)
    requires Run(trees, steps) && n < |trees| && trees[0] == NewTree(configs) && i < |configs|
    ensures |trees[n].listeners| == |configs|
    ensures var l := trees[n].listeners[i];
            Refused(l) && l.returned.Some? ==> l.returned == Some(Some(Plain("invalid listener address")))
  {
    if n > 0 {
      RefusalText(configs, trees, steps, n - 1, i);
      NewTreeInv(configs);
      RunKeepsInv(trees, steps, n - 1);
      var t, s := trees[n - 1], steps[n - 1];
      if s.Inner? && s.i == i {
        MoveTaints(t.listeners[i], RootDone(t), s.move);
        if Refused(t.listeners[i]) {
          MoveRefuses(t.listeners[i], RootDone(t), s.move);
        }
      }
    }
  }

  /** The listeners whose members of the root group have finished, in that order. */
  function Order(steps: seq<Step>, n: nat): seq<nat>
    requires n <= |steps|
  {
    if n == 0 then []
    else Order(steps, n - 1) + match steps[n - 1] case Record(i) => [i] case _ => []
  }

  lemma {:induction false} LogFollowsOrder(trees: seq<Tree>, steps: seq<Step>, n: nat)
    requires Run(trees, steps) && n < |trees| && trees[0].log == []
    ensures |trees[n].log| == |Order(steps, n)| && forall k :: 0 <= k < |trees[n].log| ==> trees[n].log[k].0 == Order(steps, n)[k]
  {
    if n > 0 {
      LogFollowsOrder(trees, steps, n - 1);
    }
  }

  lemma {:induction false} FirstErrorAt(log: seq<(nat, Option<Error>)>) returns (k: nat)
    ensures k <= |log| && forall j :: 0 <= j < k ==> log[j].1.None?
    ensures k < |log| ==> log[k].1.Some? && FirstError(log) == log[k].1
    ensures k == |log| ==> FirstError(log) == None
  {
    if log == [] || log[0].1.Some? {
      k := 0;
    } else {
      var rest := FirstErrorAt(log[1..]);
      k := rest + 1;
      assert forall j :: 1 <= j < k ==> log[j] == log[1..][j - 1];
    }
  }

  /** The error Serve returns is that of the first listener, in the order in which they finished, that had
      one due, carrying exactly what its members reported first; with none due it returns nil. */
  lemma ServeReturnsFirst(configs: seq<Config>, trees: seq<Tree>, steps: seq<Step>) returns (k: nat)
    requires Run(trees, steps) && trees[0] == NewTree(configs) && trees[|steps|].result.Some?
    ensures var n := |steps|;
            var order := Order(steps, n);
            && |order| == |configs| && (forall j :: 0 <= j < |order| ==> order[j] < |configs|)
            && k <= |order|
            && (forall j :: 0 <= j < k ==> Due(configs, steps, n, order[j]).None?)
            && (k < |order| ==>
                  && Due(configs, steps, n, order[k]).Some?
                  && trees[n].result.value == Some(Wrapped("listener failed", Due(configs, steps, n, order[k]).value)))
            && (k == |order| ==> trees[n].result.value == None)
  {
    var n := |steps|;
    var t := trees[n];
    NewTreeInv(configs);
    RunKeepsInv(trees, steps, n);
    LogFollowsOrder(trees, steps, n);
    k := FirstErrorAt(t.log);
    forall j | 0 <= j < |t.log|
      ensures Order(steps, n)[j] < |configs| && t.log[j].1 == Reported(Due(configs, steps, n, Order(steps, n)[j]))
    {
      ListenerReturnsFirst(configs, trees, steps, n, t.log[j].0);
    }
  }

  // ---------------------------------------------------------------- when the helper is left behind

  ghost predicate Observed(steps: seq<Step>, n: nat, i: nat)
    requires n <= |steps|
  {
    exists k :: 0 <= k < n && steps[k] == Inner(i, Observe)
  }

  ghost predicate HelperEnded(steps: seq<Step>, n: nat, i: nat)
    requires n <= |steps|
  {
    exists k :: 0 <= k < n && steps[k] == Inner(i, HelperEnds)
  }

  predicate CutsShort(s: Step, i: nat) {
    s.Inner? && s.i == i && s.move.TimesOut?
  }

  ghost predicate TimedOut(steps: seq<Step>, n: nat, i: nat)
    requires n <= |steps|
  {
    exists k :: 0 <= k < n && CutsShort(steps[k], i)
  }

  /** The hook has given up on the drain. */
  predicate GaveUp(l: Listener) {
    l.hook.Forcing? || (l.hook.Hooked? && l.hook.err.Some?)
  }

  lemma MoveAndHelper(l: Listener, above: bool, m: Move)
    requires ListenerInv(l, above) && CanMove(l, above, m)
    ensures var l' := MoveOf(l, m);
            && (l'.helper.Absent? <==> l.helper.Absent? && !(m.Observe? && l.kind.GRPC?))
            && (l'.helper.Gone? <==> l.helper.Gone? || m.HelperEnds?)
            && (GaveUp(l') <==> GaveUp(l) || m.TimesOut?)
  {
  }

  lemma EventsNext(steps: seq<Step>, n: nat, i: nat)
    requires n < |steps|
    ensures Observed(steps, n + 1, i) <==> Observed(steps, n, i) || steps[n] == Inner(i, Observe)
    ensures HelperEnded(steps, n + 1, i) <==> HelperEnded(steps, n, i) || steps[n] == Inner(i, HelperEnds)
    ensures TimedOut(steps, n + 1, i) <==> TimedOut(steps, n, i) || CutsShort(steps[n], i)
  {
  }

  /** The state of the helper goroutine is what has happened to the listener. */
  lemma {:induction false} HelperTracks(configs: seq<Config>, trees: seq<Tree>, steps: seq<Step>, n: nat, i: nat)
    requires Run(trees, steps) && n < |trees| && trees[0] == NewTree(configs) && i < |configs|
    ensures |trees[n].listeners| == |configs| && trees[n].listeners[i].kind == configs[i].kind
    ensures var l := trees[n].listeners[i];
            && (l.helper.Absent? <==> !(configs[i].kind.GRPC? && Observed(steps, n, i)))
            && (l.helper.Gone? <==> HelperEnded(steps, n, i))
            && (GaveUp(l) <==> TimedOut(steps, n, i))
  {
    TaintedByFaults(configs, trees, steps, n, i);
    if n > 0 {
      HelperTracks(configs, trees, steps, n - 1, i);
      NewTreeInv(configs);
      RunKeepsInv(trees, steps, n - 1);
      EventsNext(steps, n - 1, i);
      var t, s := trees[n - 1], steps[n - 1];
      if s.Inner? && s.i == i {
        MoveAndHelper(t.listeners[i], RootDone(t), s.move);
      }
    }
  }

  /** When Serve has returned, the GracefulStop goroutine of listener i is still waiting exactly when the
      listener speaks gRPC, began its shutdown, and the goroutine has not ended; that is, when the drain was
      cut short and has not ended since. After a nil result no such goroutine is left. */
  lemma HelperOutlivesServeIff(configs: seq<Config>, trees: seq<Tree>, steps: seq<Step>, i: nat)
    requires Run(trees, steps) && trees[0] == NewTree(configs) && trees[|steps|].result.Some? && i < |configs|
    ensures |trees[|steps|].listeners| == |configs|
    ensures var n := |steps|;
            var left := trees[n].listeners[i].helper.Stopping?;
            && (left <==> configs[i].kind.GRPC? && Observed(steps, n, i) && !HelperEnded(steps, n, i))
            && (left <==> configs[i].kind.GRPC? && TimedOut(steps, n, i) && !HelperEnded(steps, n, i))
            && (trees[n].result.value.None? ==> !left)
  {
    var n := |steps|;
    HelperTracks(configs, trees, steps, n, i);
    NewTreeInv(configs);
    RunKeepsInv(trees, steps, n);
    ServeReturnsLast(configs, trees, steps, n);
    var l := trees[n].listeners[i];
    assert ListenerInv(l, RootDone(trees[n])) && Finished(l);
    if TimedOut(steps, n, i) {
      assert GaveUp(l);
    }
    if trees[n].result.value.None? {
      assert l.returned.value.None?;
    }
  }

  /** t after the steps, or None as soon as one of them is impossible. */
  function After(t: Tree, steps: seq<Step>): Option<Tree>
    decreases steps
  {
    if steps == [] then Some(t)
    else if CanStep(t, steps[0]) then After(StepOf(t, steps[0]), steps[1..])
    else None
  }

  /** A gRPC listener that is cancelled, does not drain in time and is stopped by force. */
  lemma ForcedStopRuns(t: Tree) returns (steps: seq<Step>, stopped: Tree)
    requires t == NewTree([Config(GRPC, "")])
    ensures After(t, steps) == Some(stopped) && Inv(stopped) && |stopped.listeners| == 1
    ensures stopped.listeners[0].serving.Served? && stopped.listeners[0].hook.Hooked? && stopped.listeners[0].helper.Stopping?
    ensures stopped.listeners[0].returned.None? && stopped.log == [] && stopped.result.None?
  {
    var begin := [Cancel, Inner(0, Start), Inner(0, Observe)];
    var force := [Inner(0, TimesOut(Sentinel(DeadlineExceeded))), Inner(0, Force), Inner(0, ServeStops)];
    var t1 := Three(t, begin);
    stopped := Three(t1, force);
    AfterSplit(t, begin, force);
    steps := begin + force;
    NewTreeInv([Config(GRPC, "")]);
    AfterKeepsInv(t, steps);
  }

  /** The goroutine running GracefulStop is outside both groups: Serve can return while it still waits. */
  lemma HelperMayOutliveServe() returns (t: Tree, steps: seq<Step>, final: Tree)
    ensures t == NewTree([Config(GRPC, "")]) && After(t, steps) == Some(final)
    ensures final.result.Some? && |final.listeners| == 1 && final.listeners[0].helper.Stopping?
  {
    t := NewTree([Config(GRPC, "")]);
    var first, stopped := ForcedStopRuns(t);
    var end := [Inner(0, Return), Record(0), Finish];
    final := Three(stopped, end);
    AfterSplit(t, first, end);
    steps := first + end;
  }

  lemma Three(t: Tree, steps: seq<Step>) returns (t': Tree)
    requires |steps| == 3 && CanStep(t, steps[0])
    requires CanStep(StepOf(t, steps[0]), steps[1])
    requires CanStep(StepOf(StepOf(t, steps[0]), steps[1]), steps[2])
    ensures t' == StepOf(StepOf(StepOf(t, steps[0]), steps[1]), steps[2])
    ensures After(t, steps) == Some(t')
  {
    var t1 := StepOf(t, steps[0]);
    t' := StepOf(StepOf(t1, steps[1]), steps[2]);
    assert After(t, steps) == After(t1, steps[1..]);
    assert After(t1, steps[1..]) == After(StepOf(t1, steps[1]), steps[2..]);
  }

  lemma {:induction false} AfterSplit(t: Tree, a: seq<Step>, b: seq<Step>)
    requires After(t, a).Some?
    ensures After(t, a + b) == After(After(t, a).value, b)
    decreases a
  {
    if a == [] {
      assert a + b == b;
    } else {
      AfterSplit(StepOf(t, a[0]), a[1..], b);
      assert (a + b)[1..] == a[1..] + b;
    }
  }

  lemma {:induction false} AfterKeepsInv(t: Tree, steps: seq<Step>)
    requires Inv(t) && After(t, steps).Some?
    ensures Inv(After(t, steps).value) && |After(t, steps).value.listeners| == |t.listeners|
    decreases steps
  {
    if steps != [] {
      StepKeepsInv(t, steps[0]);
      AfterKeepsInv(StepOf(t, steps[0]), steps[1..]);
    }
  }
}
