/** The server object: a registry of listeners behind an RWMutex, shared by calls of Serve, which hold its
    read side for their whole run, and calls of RegisterListener, which need its write side. */
module Registry {
  import opened Prelude
  import opened Errors
  import opened Shutdown

  /** The order in which one run ranges over the listener map. */
  ghost predicate Enumerates(names: seq<string>, listeners: map<string, Config>) {
    && Lists(names, listeners)
    && (forall name :: name in listeners ==> name in names)
  }

  /** Some of the registered names, each once. */
  ghost predicate Lists(names: seq<string>, listeners: map<string, Config>) {
    && (forall i :: 0 <= i < |names| ==> names[i] in listeners)
    && (forall i, j :: 0 <= i < j < |names| ==> names[i] != names[j])
  }

  function ConfigsOf(names: seq<string>, listeners: map<string, Config>): seq<Config>
    requires forall i :: 0 <= i < |names| ==> names[i] in listeners
  {
    seq(|names|, i requires 0 <= i < |names| => listeners[names[i]])
  }

  // ---------------------------------------------------------------- the step system

  /** What one call of Serve is about: the names it has ranged over, the steps its tree of goroutines has
      taken, and that tree. `seen` records the registry as it was when the read lock was granted. */
  datatype Session = Session(seen: map<string, Config>, names: seq<string>, steps: seq<Step>, tree: Tree)

  /** Where one call of Serve stands. */
  datatype Serve = Idle | WantsRead | Ranging(run: Session) | Running(run: Session) | Returned(run: Session)

  /** Where one call of RegisterListener stands. */
  datatype Register =
    | Unasked
    | WantsLock(name: string, config: Config)
    | Announced(name: string, config: Config)
    | Locked(name: string, config: Config)
    | Stored
    | Registered

  predicate Holds(c: Serve) {
    c.Ranging? || c.Running?
  }

  predicate Begun(c: Serve) {
    c.Ranging? || c.Running? || c.Returned?
  }

  predicate Queued(r: Register) {
    r.Announced? || r.Locked? || r.Stored?
  }

  predicate HasLock(r: Register) {
    r.Locked? || r.Stored?
  }

  /** As in sync.RWMutex, a writer that has announced itself keeps new readers out while it waits. */
  datatype State = State(
    listeners: map<string, Config>,
    readers: set<nat>,
    writer: Option<nat>,
    serves: seq<Serve>,
    registers: seq<Register>)

  /** Inside is one step of the goroutines of call c. Spawn starts the goroutine of one more listener: it
      reads the registry at that moment. */
  datatype Action =
    | CallServe(c: nat)
    | RLock(c: nat)
    | Spawn(c: nat, name: string)
    | EndRange(c: nat)
    | Inside(c: nat, step: Step)
    | RUnlock(c: nat)
    | CallRegister(r: nat, newName: string, newConfig: Config)
    | Announce(r: nat)
    | Lock(r: nat)
    | Store(r: nat)
    | Unlock(r: nat)

  predicate ByServe(a: Action) {
    a.CallServe? || a.RLock? || a.Spawn? || a.EndRange? || a.Inside? || a.RUnlock?
  }

  predicate Enabled(s: State, a: Action) {
    if ByServe(a) then
      && a.c < |s.serves|
      && var pc := s.serves[a.c];
         match a
         case CallServe(_) => pc.Idle?
         case RLock(_) => pc.WantsRead? && s.writer.None?
         case Spawn(_, name) => pc.Ranging? && name in s.listeners && name !in pc.run.names
         case EndRange(_) => pc.Ranging? && forall name :: name in s.listeners ==> name in pc.run.names
         case Inside(_, step) => Holds(pc) && CanStep(pc.run.tree, step) && (pc.Ranging? ==> !step.Finish?)
         case RUnlock(_) => pc.Running? && pc.run.tree.result.Some?
         case _ => false
    else
      && a.r < |s.registers|
      && var pc := s.registers[a.r];
         match a
         case CallRegister(_, _, _) => pc.Unasked?
         case Announce(_) => pc.WantsLock? && s.writer.None?
         case Lock(_) => pc.Announced? && s.readers == {}
         case Store(_) => pc.Locked?
         case Unlock(_) => pc.Stored?
         case _ => false
  }

  /** A tree with one more listener that has not started. */
  function Grow(t: Tree, c: Config): Tree {
    t.(listeners := t.listeners + [NewListener(c)])
  }

  function Spawned(run: Session, name: string, config: Config): Session {
    run.(names := run.names + [name], tree := Grow(run.tree, config))
  }

  function Stepped(run: Session, step: Step): Session
    requires CanStep(run.tree, step)
  {
    run.(steps := run.steps + [step], tree := StepOf(run.tree, step))
  }

  function Apply(s: State, a: Action): State
    requires Enabled(s, a)
  {
    match a
    case CallServe(c) => s.(serves := s.serves[c := WantsRead])
    case RLock(c) =>
      s.(serves := s.serves[c := Ranging(Session(s.listeners, [], [], NewTree([])))], readers := s.readers + {c})
    case Spawn(c, name) => s.(serves := s.serves[c := Ranging(Spawned(s.serves[c].run, name, s.listeners[name]))])
    case EndRange(c) => s.(serves := s.serves[c := Running(s.serves[c].run)])
    case Inside(c, step) =>
      var next := Stepped(s.serves[c].run, step);
      s.(serves := s.serves[c := if s.serves[c].Ranging? then Ranging(next) else Running(next)])
    case RUnlock(c) => s.(serves := s.serves[c := Returned(s.serves[c].run)], readers := s.readers - {c})
    case CallRegister(r, name, config) => s.(registers := s.registers[r := WantsLock(name, config)])
    case Announce(r) =>
      var pc := s.registers[r];
      s.(registers := s.registers[r := Announced(pc.name, pc.config)], writer := Some(r))
    case Lock(r) =>
      var pc := s.registers[r];
      s.(registers := s.registers[r := Locked(pc.name, pc.config)])
    case Store(r) =>
      var pc := s.registers[r];
      s.(registers := s.registers[r := Stored], listeners := s.listeners[pc.name := pc.config])
    case Unlock(r) => s.(registers := s.registers[r := Registered], writer := None)
  }

  predicate Init(s: State) {
    && s.listeners == map[] && s.readers == {} && s.writer.None?
    && (forall c :: 0 <= c < |s.serves| ==> s.serves[c].Idle?)
    && (forall r :: 0 <= r < |s.registers| ==> s.registers[r].Unasked?)
  }

  ghost predicate LockInv(s: State) {
    && (forall c :: c in s.readers ==> c < |s.serves|)
    && (forall c :: 0 <= c < |s.serves| ==> (c in s.readers <==> Holds(s.serves[c])))
    && (s.writer.Some? ==> s.writer.value < |s.registers| && Queued(s.registers[s.writer.value]))
    && (forall r :: 0 <= r < |s.registers| && Queued(s.registers[r]) ==> s.writer == Some(r))
    && (forall r :: 0 <= r < |s.registers| && HasLock(s.registers[r]) ==> s.readers == {})
  }

  /** The tree of a call is what its steps make of the listeners it has ranged over, all of them as they
      were registered when the call locked. */
  ghost predicate RunsSeen(run: Session) {
    && Lists(run.names, run.seen)
    && After(NewTree(ConfigsOf(run.names, run.seen)), run.steps) == Some(run.tree)
  }

  ghost predicate ServeInv(pc: Serve, listeners: map<string, Config>) {
    && (Begun(pc) ==> RunsSeen(pc.run))
    && (Holds(pc) ==> pc.run.seen == listeners)
    && (pc.Ranging? ==> pc.run.tree.result.None?)
    && (pc.Running? || pc.Returned? ==> Enumerates(pc.run.names, pc.run.seen))
    && (pc.Returned? ==> pc.run.tree.result.Some?)
  }

  ghost predicate Inv(s: State) {
    LockInv(s) && forall c :: 0 <= c < |s.serves| ==> ServeInv(s.serves[c], s.listeners)
  }

  // ---------------------------------------------------------------- growing trees

  lemma {:induction false} ResultStays(t: Tree, steps: seq<Step>)
    requires After(t, steps).Some? && t.result.Some?
    ensures After(t, steps).value.result.Some?
    decreases steps
  {
    if steps != [] {
      ResultStays(StepOf(t, steps[0]), steps[1..]);
    }
  }

  lemma GrowStep(t: Tree, s: Step, c: Config)
    requires CanStep(t, s) && !s.Finish?
    ensures CanStep(Grow(t, c), s) && StepOf(Grow(t, c), s) == Grow(StepOf(t, s), c)
  {
    if s.Inner? {
      var l := MoveOf(t.listeners[s.i], s.move);
      assert (t.listeners + [NewListener(c)])[s.i := l] == t.listeners[s.i := l] + [NewListener(c)];
    }
  }

  /** A listener that joins late might as well have been there from the beginning. */
  lemma {:induction false} GrowLate(t: Tree, steps: seq<Step>, c: Config)
    requires After(t, steps).Some? && After(t, steps).value.result.None?
    ensures After(Grow(t, c), steps) == Some(Grow(After(t, steps).value, c))
    decreases steps
  {
    if steps != [] {
      var next := StepOf(t, steps[0]);
      if next.result.Some? {
        ResultStays(next, steps[1..]);
      }
      GrowStep(t, steps[0], c);
      GrowLate(next, steps[1..], c);
    }
  }

  lemma SpawnRunsSeen(run: Session, name: string)
    requires RunsSeen(run) && run.tree.result.None? && name in run.seen && name !in run.names
    ensures RunsSeen(Spawned(run, name, run.seen[name]))
  {
    var configs := ConfigsOf(run.names, run.seen);
    GrowLate(NewTree(configs), run.steps, run.seen[name]);
    assert ConfigsOf(run.names + [name], run.seen) == configs + [run.seen[name]];
    assert NewTree(configs + [run.seen[name]]) == Grow(NewTree(configs), run.seen[name]);
  }

  lemma StepRunsSeen(run: Session, step: Step)
    requires RunsSeen(run) && CanStep(run.tree, step)
    ensures RunsSeen(Stepped(run, step))
  {
    AfterSplit(NewTree(ConfigsOf(run.names, run.seen)), run.steps, [step]);
    assert After(StepOf(run.tree, step), [step][1..]) == Some(StepOf(run.tree, step));
  }

  // ---------------------------------------------------------------- runs

  lemma StepKeepsLock(s: State, a: Action)
    requires LockInv(s) && Enabled(s, a)
    ensures LockInv(Apply(s, a))
  {
  }

  lemma StepKeepsServe(s: State, a: Action, c: nat)
    requires Inv(s) && Enabled(s, a) && c < |s.serves|
    ensures ServeInv(Apply(s, a).serves[c], Apply(s, a).listeners)
  {
    assert ServeInv(s.serves[c], s.listeners);
    var pc := s.serves[c];
    if ByServe(a) && a.c == c {
      match a
      case RLock(_) =>
        assert ConfigsOf([], s.listeners) == [];
      case Spawn(_, name) =>
        SpawnRunsSeen(pc.run, name);
      case Inside(_, step) =>
        StepRunsSeen(pc.run, step);
      case _ =>
    } else if a.Store? {
      assert HasLock(s.registers[a.r]) && c !in s.readers;
    }
  }

  lemma StepKeepsInv(s: State, a: Action)
    requires Inv(s) && Enabled(s, a)
    ensures Inv(Apply(s, a))
  {
    StepKeepsLock(s, a);
    forall c | 0 <= c < |s.serves| ensures ServeInv(Apply(s, a).serves[c], Apply(s, a).listeners) {
      StepKeepsServe(s, a, c);
    }
  }

  ghost predicate Run(states: seq<State>, actions: seq<Action>) {
    && |states| == |actions| + 1 && Init(states[0])
    && forall i :: 0 <= i < |actions| ==> Enabled(states[i], actions[i]) && states[i + 1] == Apply(states[i], actions[i])
  }

  lemma {:induction false} RunKeepsInv(states: seq<State>, actions: seq<Action>, n: nat)
    requires Run(states, actions) && n < |states|
    ensures Inv(states[n]) && |states[n].serves| == |states[0].serves| && |states[n].registers| == |states[0].registers|
  {
    if n > 0 {
      RunKeepsInv(states, actions, n - 1);
      StepKeepsInv(states[n - 1], actions[n - 1]);
    }
  }

  lemma StepKeepsSeen(s: State, a: Action, c: nat)
    requires Enabled(s, a) && c < |s.serves|
    ensures var pc, pc' := s.serves[c], Apply(s, a).serves[c];
            && (Begun(pc) ==> Begun(pc') && pc'.run.seen == pc.run.seen && (Holds(pc') ==> Holds(pc)))
            && (!Begun(pc) && Begun(pc') ==> a == RLock(c) && pc'.run.seen == s.listeners)
  {
  }

  /** Once a call has locked it keeps what it saw, and once it has returned it stays returned. */
  lemma {:induction false} SeenStays(states: seq<State>, actions: seq<Action>, i: nat, j: nat, c: nat)
    requires Run(states, actions) && i <= j < |states|
    requires c < |states[i].serves| && Begun(states[i].serves[c])
    ensures c < |states[j].serves| && Begun(states[j].serves[c])
    ensures states[j].serves[c].run.seen == states[i].serves[c].run.seen
    ensures Holds(states[j].serves[c]) ==> Holds(states[i].serves[c])
    decreases j
  {
    if i < j {
      SeenStays(states, actions, i, j - 1, c);
      StepKeepsSeen(states[j - 1], actions[j - 1], c);
    }
  }

  /** While a call of Serve holds the read lock the registry does not change, whatever other calls do: it is
      the same at any two moments between its RLock and its RUnlock. */
  lemma RegistryFrozen(states: seq<State>, actions: seq<Action>, i: nat, k: nat, j: nat, c: nat)
    requires Run(states, actions) && i <= k <= j < |states|
    requires c < |states[i].serves| && c < |states[j].serves| && Holds(states[i].serves[c]) && Holds(states[j].serves[c])
    ensures states[k].listeners == states[i].listeners
  {
    SeenStays(states, actions, i, k, c);
    SeenStays(states, actions, k, j, c);
    RunKeepsInv(states, actions, i);
    RunKeepsInv(states, actions, k);
    assert ServeInv(states[i].serves[c], states[i].listeners) && ServeInv(states[k].serves[c], states[k].listeners);
  }

  /** What a call saw is the registry at the moment its read lock was granted. */
  lemma {:induction false} SeenAtLock(states: seq<State>, actions: seq<Action>, n: nat, c: nat) returns (i: nat)
    requires Run(states, actions) && n < |states| && c < |states[n].serves| && Begun(states[n].serves[c])
    ensures i < n && actions[i] == RLock(c) && states[n].serves[c].run.seen == states[i].listeners
  {
    StepKeepsSeen(states[n - 1], actions[n - 1], c);
    if Begun(states[n - 1].serves[c]) {
      i := SeenAtLock(states, actions, n - 1, c);
    } else {
      i := n - 1;
    }
  }

  /** Every call of Serve, however many there are and whatever is registered meanwhile, has run exactly the
      listeners registered when its lock was granted, each under the configuration it then had, and it has
      returned only after all of them, with the first of their errors. */
  lemma ServeRunsItsRegistry(states: seq<State>, actions: seq<Action>, n: nat, c: nat) returns (i: nat)
    requires Run(states, actions) && n < |states| && c < |states[n].serves| && states[n].serves[c].Returned?
    ensures i < n && actions[i] == RLock(c)
    ensures var run := states[n].serves[c].run;
            && Enumerates(run.names, states[i].listeners)
            && After(NewTree(ConfigsOf(run.names, states[i].listeners)), run.steps) == Some(run.tree)
            && |run.tree.listeners| == |run.names| && Complete(run.tree)
  {
    i := SeenAtLock(states, actions, n, c);
    RunKeepsInv(states, actions, n);
    assert ServeInv(states[n].serves[c], states[n].listeners);
    var run := states[n].serves[c].run;
    NewTreeInv(ConfigsOf(run.names, run.seen));
    AfterKeepsInv(NewTree(ConfigsOf(run.names, run.seen)), run.steps);
    ResultIsComplete(run.tree);
  }

  /** A registration that is asked for while calls of Serve run takes effect only when all of them have
      returned; it then sets the one name and leaves the others. */
  lemma RegistrationWaits(states: seq<State>, actions: seq<Action>, i: nat, n: nat, c: nat)
    requires Run(states, actions) && i <= n < |actions| && c < |states[i].serves| && Holds(states[i].serves[c])
    requires states[n + 1].listeners != states[n].listeners
    ensures c < |states[n].serves| && states[n].serves[c].Returned?
    ensures actions[n].Store? && actions[n].r < |states[n].registers| && states[n].registers[actions[n].r].Locked?
    ensures var pc := states[n].registers[actions[n].r];
            states[n + 1].listeners == states[n].listeners[pc.name := pc.config]
  {
    SeenStays(states, actions, i, n, c);
    RunKeepsInv(states, actions, n);
    assert actions[n].Store? && HasLock(states[n].registers[actions[n].r]);
  }

  /** What call r of RegisterListener was asked to register, as far as the first n actions tell. */
  function Asked(actions: seq<Action>, n: nat, r: nat): Option<(string, Config)>
    requires n <= |actions|
  {
    if n == 0 then None
    else
      match actions[n - 1]
      case CallRegister(q, name, config) => if q == r then Some((name, config)) else Asked(actions, n - 1, r)
      case _ => Asked(actions, n - 1, r)
  }

  /** The registry that the registrations stored so far build up, the last one for each name. */
  function Registrations(actions: seq<Action>, n: nat): map<string, Config>
    requires n <= |actions|
  {
    if n == 0 then map[]
    else
      var before := Registrations(actions, n - 1);
      match actions[n - 1]
      case Store(r) =>
        var asked := Asked(actions, n - 1, r);
        if asked.Some? then before[asked.value.0 := asked.value.1] else before
      case _ => before
  }

  ghost predicate HasStored(actions: seq<Action>, n: nat, r: nat)
    requires n <= |actions|
  {
    exists k :: 0 <= k < n && actions[k] == Store(r)
  }

  /** A call keeps what it was asked until it stores it, and it has stored it once it has returned. */
  ghost predicate RegisterInv(pc: Register, actions: seq<Action>, n: nat, r: nat)
    requires n <= |actions|
  {
    match pc
    case WantsLock(name, config) => Asked(actions, n, r) == Some((name, config))
    case Announced(name, config) => Asked(actions, n, r) == Some((name, config))
    case Locked(name, config) => Asked(actions, n, r) == Some((name, config))
    case Stored => HasStored(actions, n, r)
    case Registered => HasStored(actions, n, r)
    case Unasked => true
  }

  lemma StepRegisters(s: State, actions: seq<Action>, n: nat, r: nat)
    requires n < |actions| && Enabled(s, actions[n]) && r < |s.registers| && RegisterInv(s.registers[r], actions, n, r)
    ensures RegisterInv(Apply(s, actions[n]).registers[r], actions, n + 1, r)
  {
    if HasStored(actions, n, r) {
      var k :| 0 <= k < n && actions[k] == Store(r);
      assert HasStored(actions, n + 1, r);
    }
    if actions[n] == Store(r) {
      assert HasStored(actions, n + 1, r);
    }
  }

  /** In every run the registry holds exactly what has been registered, each name with its last
      configuration, and a call of RegisterListener that has returned has registered what it was asked. */
  lemma {:induction false} RegistryHoldsRegistrations(states: seq<State>, actions: seq<Action>, n: nat)
    requires Run(states, actions) && n < |states|
    ensures states[n].listeners == Registrations(actions, n)
    ensures forall r :: 0 <= r < |states[n].registers| ==> RegisterInv(states[n].registers[r], actions, n, r)
  {
    if n > 0 {
      RegistryHoldsRegistrations(states, actions, n - 1);
      forall r | 0 <= r < |states[n].registers| ensures RegisterInv(states[n].registers[r], actions, n, r) {
        StepRegisters(states[n - 1], actions, n - 1, r);
      }
      if actions[n - 1].Store? {
        assert RegisterInv(states[n - 1].registers[actions[n - 1].r], actions, n - 1, actions[n - 1].r);
      }
    }
  }

  // ---------------------------------------------------------------- progress

  predicate Unfinished(s: State) {
    || (exists c :: 0 <= c < |s.serves| && !s.serves[c].Idle? && !s.serves[c].Returned?)
    || (exists r :: 0 <= r < |s.registers| && !s.registers[r].Unasked? && !s.registers[r].Registered?)
  }

  predicate NewCall(a: Action) {
    a.CallServe? || a.CallRegister?
  }

  /** The mutex never deadlocks: once the contexts of the running calls of Serve are cancelled, some call
      can always go on until every Serve and every registration has returned. */
  lemma NeverStuck(s: State)
    requires Inv(s) && Unfinished(s)
    requires forall c :: 0 <= c < |s.serves| && s.serves[c].Running? ==> (s.serves[c].run.tree.parentDone || SomeFailed(s.serves[c].run.tree))
    ensures exists a :: Enabled(s, a) && !NewCall(a)
  {
    if s.readers != {} {
      var c :| c in s.readers;
      HolderMoves(s, c);
    } else if s.writer.Some? {
      var r := s.writer.value;
      var a := if s.registers[r].Announced? then Lock(r) else if s.registers[r].Locked? then Store(r) else Unlock(r);
      assert Enabled(s, a) && !NewCall(a);
    } else if c :| 0 <= c < |s.serves| && !s.serves[c].Idle? && !s.serves[c].Returned? {
      assert Enabled(s, RLock(c)) && !NewCall(RLock(c));
    } else {
      var r :| 0 <= r < |s.registers| && !s.registers[r].Unasked? && !s.registers[r].Registered?;
      assert Enabled(s, Announce(r)) && !NewCall(Announce(r));
    }
  }

  lemma HolderMoves(s: State, c: nat)
    requires Inv(s) && c < |s.serves| && Holds(s.serves[c])
    requires s.serves[c].Running? ==> (s.serves[c].run.tree.parentDone || SomeFailed(s.serves[c].run.tree))
    ensures exists a :: Enabled(s, a) && !NewCall(a)
  {
    assert ServeInv(s.serves[c], s.listeners);
    var run := s.serves[c].run;
    if s.serves[c].Ranging? {
      if name :| name in s.listeners && name !in run.names {
        assert Enabled(s, Spawn(c, name)) && !NewCall(Spawn(c, name));
      } else {
        assert Enabled(s, EndRange(c)) && !NewCall(EndRange(c));
      }
    } else if run.tree.result.Some? {
      assert Enabled(s, RUnlock(c)) && !NewCall(RUnlock(c));
    } else {
      NewTreeInv(ConfigsOf(run.names, run.seen));
      AfterKeepsInv(NewTree(ConfigsOf(run.names, run.seen)), run.steps);
      CancelledTreeSteps(run.tree);
      var step :| ForcedStep(run.tree, step) && CanStep(run.tree, step);
      assert Enabled(s, Inside(c, step)) && !NewCall(Inside(c, step));
    }
  }

  // ---------------------------------------------------------------- one call, as written

  class Server {
    var listeners: map<string, Config>
    /** How many calls of Serve hold the read side of the mutex. */
    var readers: nat

    constructor ()
      ensures listeners == map[] && readers == 0
    {
      listeners, readers := map[], 0;
    }

    /** Registration once the write side of the mutex has been granted. */
    method RegisterListener(name: string, listener: Config)
      requires readers == 0
      modifies this
      ensures listeners == old(listeners)[name := listener] && readers == 0
    {
      listeners := listeners[name := listener];
    }

    /** Serve under any possible schedule of its goroutines. If the schedule brings it to its return, every
        registered listener has finished, the result is the first error in completion order, and the read
        side is given back; otherwise Serve is still waiting and still holds it. The registry stays. */
    method Serve(names: seq<string>, schedule: seq<Step>) returns (err: Option<Option<Error>>, final: Tree)
      requires Enumerates(names, listeners)
      requires After(NewTree(ConfigsOf(names, listeners)), schedule).Some?
      modifies this`readers
      ensures After(NewTree(ConfigsOf(names, listeners)), schedule) == Some(final)
      ensures err == final.result && readers == old(readers) + if err.Some? then 0 else 1
      ensures err.Some? ==> |final.listeners| == |names| && Complete(final) && err.value == FirstError(final.log)
    {
      readers := readers + 1;
      var started: seq<Listener> := [];
      for i := 0 to |names|
        invariant readers == old(readers) + 1
        invariant started == NewTree(ConfigsOf(names, listeners)).listeners[..i]
      {
        started := started + [NewListener(listeners[names[i]])];
      }
      final := Tree(false, started, [], None, None);
      assert final == NewTree(ConfigsOf(names, listeners));
      NewTreeInv(ConfigsOf(names, listeners));
      AfterKeepsInv(final, schedule);
      ghost var end := After(final, schedule);
      var k := 0;
      assert schedule[0..] == schedule;
      while k < |schedule|
        invariant 0 <= k <= |schedule|
        invariant After(final, schedule[k..]) == end
        invariant readers == old(readers) + 1
      {
        final := StepOf(final, schedule[k]);
        assert schedule[k..][1..] == schedule[k + 1..];
        k := k + 1;
      }
      err := final.result;
      if err.Some? {
        ResultIsComplete(final);
        readers := readers - 1;
      }
    }
  }
}
