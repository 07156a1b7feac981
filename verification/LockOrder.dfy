/** The server's mutexes, the order in which its operations nest them, and why no set of threads deadlocks. */
module LockOrder {

  /** Actuator stands for the life of the actuate thread: that thread holds it, and joining the thread waits for it. */
  datatype Lock = StartStop | Actuator | Interlocker | GrabbedTrains | DynContainers

  function Rank(l: Lock): (r: nat)
    ensures r <= 3
  {
    match l
    case StartStop => 0
    case Actuator => 1
    case Interlocker => 2
    case GrabbedTrains => 2
    case DynContainers => 3
  }

  datatype Action = Acquire(lock: Lock) | Release(lock: Lock)

  type Script = seq<Action>

  predicate Below(held: set<Lock>, l: Lock) {
    forall h :: h in held ==> Rank(h) < Rank(l)
  }

  /** From `held`, the script acquires only upwards, releases only what it holds, and ends with `end`. */
  predicate Obeys(held: set<Lock>, script: Script, end: set<Lock>)
    decreases |script|
  {
    if script == [] then held == end
    else
      match script[0]
      case Acquire(l) => Below(held, l) && Obeys(held + {l}, script[1..], end)
      case Release(l) => l in held && Obeys(held - {l}, script[1..], end)
  }

  predicate Keeps(held: set<Lock>, script: Script) {
    Obeys(held, script, held)
  }

  // ----- what the operations do with the locks -----

  function Under(l: Lock, body: Script): Script {
    [Acquire(l)] + (body + [Release(l)])
  }

  function Locked(l: Lock): Script {
    Under(l, [])
  }

  function Times(n: nat, script: Script): Script {
    if n == 0 then [] else script + Times(n - 1, script)
  }

  function When(c: bool, script: Script): Script {
    if c then script else []
  }

  /** Setting or clearing a request, and clearing or setting it back after the container has answered. */
  const HANDSHAKE: Script := Locked(DynContainers) + Locked(DynContainers)

  const INPUTS: Script := Under(GrabbedTrains, Locked(DynContainers))

  /** One constructor per operation that takes a lock; the parameters are the branches and the loop counts. */
  datatype Operation =
    | Actuate(rounds: nat)
    | GrabTrain(free: bool, found: bool)                        // a grab-id is free; engine and instance are found
    | ReleaseTrain(valid: bool)
    | LookUpTrain
    | SetTrainSpeed(valid: bool)
    | DriveRoute(automatic: bool, passed: bool, grabbed: bool, grabbedAtEnd: bool, granted: bool)
    | UseInterlocking                                           // grant by id, release, and all reading requests
    | GrantRoute(selected: bool, resets: nat, ticks: nat)
    | SetInterlocker(unset: bool, slot: bool, found: bool)
    | UnsetInterlocker(matches: bool)
    | Startup(loads: bool, found: bool)
    | Shutdown(trains: seq<bool>, interlockers: nat)
    | ChangeContainer(slot: bool)                               // upload or remove an engine or interlocker
    | ReadContainers

  function Acquired(found: bool): Script {
    if found then HANDSHAKE else Locked(DynContainers)
  }

  function ReleaseTrains(valid: seq<bool>): Script {
    if valid == [] then [] else Under(GrabbedTrains, When(valid[0], HANDSHAKE)) + ReleaseTrains(valid[1..])
  }

  function ScriptOf(op: Operation): Script {
    match op
    case Actuate(rounds) => Under(Actuator, Times(rounds, INPUTS))
    case GrabTrain(free, found) => Under(GrabbedTrains, When(free, Acquired(found)))
    case ReleaseTrain(valid) => Under(GrabbedTrains, When(valid, HANDSHAKE))
    case LookUpTrain => Locked(GrabbedTrains)
    case SetTrainSpeed(valid) => Under(GrabbedTrains, When(valid, Locked(DynContainers)))
    case DriveRoute(automatic, passed, grabbed, grabbedAtEnd, granted) =>
      Under(GrabbedTrains, When(automatic, Locked(DynContainers)))
      + (When(automatic && passed, Locked(GrabbedTrains) + When(grabbed, INPUTS))
      + ((Locked(GrabbedTrains) + When(grabbedAtEnd, INPUTS))
      + When(granted, Locked(Interlocker))))
    case UseInterlocking => Locked(Interlocker)
    case GrantRoute(selected, resets, ticks) =>
      Under(Interlocker, When(selected, Locked(DynContainers) + (Times(resets, Locked(DynContainers))
                                        + (Locked(DynContainers) + Times(ticks, Locked(DynContainers))))))
    case SetInterlocker(unset, slot, found) => Under(Interlocker, When(unset && slot, Acquired(found)))
    case UnsetInterlocker(matches) => Under(Interlocker, When(matches, HANDSHAKE))
    case Startup(loads, found) => Under(StartStop, When(loads, Under(Interlocker, Acquired(found))))
    case Shutdown(trains, interlockers) =>
      Under(StartStop, ReleaseTrains(trains) + (Under(Interlocker, Times(interlockers, HANDSHAKE)) + Locked(Actuator)))
    case ChangeContainer(slot) =>
      Under(DynContainers, When(slot, [Release(DynContainers), Acquire(DynContainers)]))
    case ReadContainers => Locked(DynContainers)
  }

  /** A thread performs operations one after the other. */
  function Scripts(ops: seq<Operation>): Script {
    if ops == [] then [] else ScriptOf(ops[0]) + Scripts(ops[1..])
  }

  // ----- the lock calls, written out -----

  /** The lock calls of the train operations, one by one. */
  lemma TrainTranscripts()
    ensures ScriptOf(GrabTrain(true, true)) ==
            [Acquire(GrabbedTrains), Acquire(DynContainers), Release(DynContainers), Acquire(DynContainers),
             Release(DynContainers), Release(GrabbedTrains)]
    ensures ScriptOf(GrabTrain(true, false)) ==
            [Acquire(GrabbedTrains), Acquire(DynContainers), Release(DynContainers), Release(GrabbedTrains)]
    ensures ScriptOf(GrabTrain(false, true)) == [Acquire(GrabbedTrains), Release(GrabbedTrains)]
    ensures ScriptOf(ReleaseTrain(true)) ==
            [Acquire(GrabbedTrains), Acquire(DynContainers), Release(DynContainers), Acquire(DynContainers),
             Release(DynContainers), Release(GrabbedTrains)]
    ensures ScriptOf(ReleaseTrain(false)) == [Acquire(GrabbedTrains), Release(GrabbedTrains)]
    ensures ScriptOf(SetTrainSpeed(true)) ==
            [Acquire(GrabbedTrains), Acquire(DynContainers), Release(DynContainers), Release(GrabbedTrains)]
    ensures ScriptOf(SetTrainSpeed(false)) == [Acquire(GrabbedTrains), Release(GrabbedTrains)]
    ensures ScriptOf(LookUpTrain) == [Acquire(GrabbedTrains), Release(GrabbedTrains)]
  {
  }

  lemma DriveTranscripts()
    ensures ScriptOf(Actuate(1)) ==
            [Acquire(Actuator), Acquire(GrabbedTrains), Acquire(DynContainers), Release(DynContainers),
             Release(GrabbedTrains), Release(Actuator)]
    ensures ScriptOf(DriveRoute(true, true, true, true, true))
         == [Acquire(GrabbedTrains), Acquire(DynContainers), Release(DynContainers), Release(GrabbedTrains)]
            + (([Acquire(GrabbedTrains), Release(GrabbedTrains)]
                + [Acquire(GrabbedTrains), Acquire(DynContainers), Release(DynContainers), Release(GrabbedTrains)])
            + (([Acquire(GrabbedTrains), Release(GrabbedTrains)]
                + [Acquire(GrabbedTrains), Acquire(DynContainers), Release(DynContainers), Release(GrabbedTrains)])
            + [Acquire(Interlocker), Release(Interlocker)]))
    ensures ScriptOf(DriveRoute(false, true, true, false, false)) ==
            [Acquire(GrabbedTrains), Release(GrabbedTrains), Acquire(GrabbedTrains), Release(GrabbedTrains)]
  {
    LocksWritten(GrabbedTrains);
    LocksWritten(DynContainers);
    LocksWritten(Interlocker);
    InputsWritten();
    assert Times(1, INPUTS) == INPUTS;
    assert Under(GrabbedTrains, Locked(DynContainers)) == INPUTS;
    hide Locked, INPUTS, Times;
  }

  lemma LocksWritten(l: Lock)
    ensures Locked(l) == [Acquire(l), Release(l)]
  {
  }

  lemma InputsWritten()
    ensures INPUTS == [Acquire(GrabbedTrains), Acquire(DynContainers), Release(DynContainers), Release(GrabbedTrains)]
  {
  }

  /** And of the operations on routes, interlockers and containers. */
  lemma InterlockerTranscripts()
    ensures ScriptOf(UseInterlocking) == [Acquire(Interlocker), Release(Interlocker)]
    ensures ScriptOf(SetInterlocker(true, true, true)) ==
            [Acquire(Interlocker), Acquire(DynContainers), Release(DynContainers), Acquire(DynContainers),
             Release(DynContainers), Release(Interlocker)]
    ensures ScriptOf(SetInterlocker(true, false, true)) == [Acquire(Interlocker), Release(Interlocker)]
    ensures ScriptOf(SetInterlocker(false, true, true)) == [Acquire(Interlocker), Release(Interlocker)]
    ensures ScriptOf(UnsetInterlocker(true)) ==
            [Acquire(Interlocker), Acquire(DynContainers), Release(DynContainers), Acquire(DynContainers),
             Release(DynContainers), Release(Interlocker)]
    ensures ScriptOf(UnsetInterlocker(false)) == [Acquire(Interlocker), Release(Interlocker)]
    ensures ScriptOf(ChangeContainer(true)) ==
            [Acquire(DynContainers), Release(DynContainers), Acquire(DynContainers), Release(DynContainers)]
    ensures ScriptOf(ChangeContainer(false)) == [Acquire(DynContainers), Release(DynContainers)]
    ensures ScriptOf(ReadContainers) == [Acquire(DynContainers), Release(DynContainers)]
  {
  }

  lemma GrantTranscripts()
    ensures ScriptOf(GrantRoute(true, 1, 1)) ==
            [Acquire(Interlocker), Acquire(DynContainers), Release(DynContainers), Acquire(DynContainers),
             Release(DynContainers), Acquire(DynContainers), Release(DynContainers), Acquire(DynContainers),
             Release(DynContainers), Release(Interlocker)]
    ensures ScriptOf(GrantRoute(false, 1, 1)) == [Acquire(Interlocker), Release(Interlocker)]
  {
    LocksWritten(DynContainers);
    assert Times(1, Locked(DynContainers)) == Locked(DynContainers);
    hide Locked, Times;
  }

  /** And of starting up and shutting down, with one grabbed train and one interlocker. */
  lemma AdminTranscripts()
    ensures ScriptOf(Startup(true, true)) ==
            [Acquire(StartStop), Acquire(Interlocker), Acquire(DynContainers), Release(DynContainers),
             Acquire(DynContainers), Release(DynContainers), Release(Interlocker), Release(StartStop)]
    ensures ScriptOf(Startup(false, true)) == [Acquire(StartStop), Release(StartStop)]
  {
  }

  lemma ShutdownTranscript()
    ensures ScriptOf(Shutdown([true], 1)) == [Acquire(StartStop)]
            + ([Acquire(GrabbedTrains), Acquire(DynContainers), Release(DynContainers), Acquire(DynContainers),
                Release(DynContainers), Release(GrabbedTrains)]
            + ([Acquire(Interlocker), Acquire(DynContainers), Release(DynContainers), Acquire(DynContainers),
                Release(DynContainers), Release(Interlocker)]
            + [Acquire(Actuator), Release(Actuator)])
            + [Release(StartStop)])
  {
    LocksWritten(Actuator);
    LocksWritten(DynContainers);
    assert HANDSHAKE == [Acquire(DynContainers), Release(DynContainers), Acquire(DynContainers), Release(DynContainers)];
    assert Times(1, HANDSHAKE) == HANDSHAKE;
    hide Locked, HANDSHAKE, Times;
    assert ReleaseTrains([true]) == Under(GrabbedTrains, HANDSHAKE);
    HandshakeUnder(GrabbedTrains);
    HandshakeUnder(Interlocker);
    hide ReleaseTrains;
  }

  lemma HandshakeUnder(l: Lock)
    ensures Under(l, HANDSHAKE) == [Acquire(l), Acquire(DynContainers), Release(DynContainers), Acquire(DynContainers),
                                    Release(DynContainers), Release(l)]
  {
  }

  // ----- every operation obeys the order -----

  lemma {:induction false} InTurn(held: set<Lock>, a: Script, middle: set<Lock>, b: Script, end: set<Lock>)
    requires Obeys(held, a, middle) && Obeys(middle, b, end)
    ensures Obeys(held, a + b, end)
    decreases |a|
  {
    if a == [] {
      assert a + b == b;
    } else {
      assert (a + b)[0] == a[0] && (a + b)[1..] == a[1..] + b;
      InTurn(if a[0].Acquire? then held + {a[0].lock} else held - {a[0].lock}, a[1..], middle, b, end);
    }
  }

  lemma UnderKeeps(held: set<Lock>, l: Lock, body: Script)
    requires Below(held, l) && Keeps(held + {l}, body)
    ensures Keeps(held, Under(l, body))
  {
    assert l !in held && held + {l} - {l} == held;
    assert [Release(l)][1..] == [];
    assert Obeys(held + {l}, [Release(l)], held);
    InTurn(held + {l}, body, held + {l}, [Release(l)], held);
    assert Under(l, body)[1..] == body + [Release(l)];
  }

  lemma LockedKeeps(held: set<Lock>, l: Lock)
    requires Below(held, l)
    ensures Keeps(held, Locked(l))
  {
  }

  lemma {:induction false} TimesKeeps(held: set<Lock>, n: nat, script: Script)
    requires Keeps(held, script)
    ensures Keeps(held, Times(n, script))
  {
    if n > 0 {
      TimesKeeps(held, n - 1, script);
      InTurn(held, script, held, Times(n - 1, script), held);
    }
  }

  lemma BothKeep(held: set<Lock>, a: Script, b: Script)
    requires Keeps(held, a) && Keeps(held, b)
    ensures Keeps(held, a + b)
  {
    InTurn(held, a, held, b, held);
  }

  lemma HandshakeKeeps(held: set<Lock>)
    requires Below(held, DynContainers)
    ensures Keeps(held, HANDSHAKE) && Keeps(held, Locked(DynContainers))
  {
  }

  lemma InputsKeep(held: set<Lock>)
    requires Below(held, GrabbedTrains) && Below(held + {GrabbedTrains}, DynContainers)
    ensures Keeps(held, INPUTS)
  {
  }

  lemma {:induction false} ReleaseTrainsKeeps(held: set<Lock>, valid: seq<bool>)
    requires Below(held, GrabbedTrains) && Below(held + {GrabbedTrains}, DynContainers)
    ensures Keeps(held, ReleaseTrains(valid))
    decreases |valid|
  {
    if valid != [] {
      HandshakeKeeps(held + {GrabbedTrains});
      UnderKeeps(held, GrabbedTrains, When(valid[0], HANDSHAKE));
      ReleaseTrainsKeeps(held, valid[1..]);
      BothKeep(held, Under(GrabbedTrains, When(valid[0], HANDSHAKE)), ReleaseTrains(valid[1..]));
    }
  }

  lemma DriveObeys(automatic: bool, passed: bool, grabbed: bool, grabbedAtEnd: bool, granted: bool)
    ensures Keeps({}, ScriptOf(DriveRoute(automatic, passed, grabbed, grabbedAtEnd, granted)))
  {
    LockedKeeps({} + {GrabbedTrains}, DynContainers);
    UnderKeeps({}, GrabbedTrains, When(automatic, Locked(DynContainers)));
    LockedKeeps({}, GrabbedTrains);
    LockedKeeps({}, Interlocker);
    InputsKeep({});
    hide Under, Obeys;
    BothKeep({}, Locked(GrabbedTrains), When(grabbed, INPUTS));
    BothKeep({}, Locked(GrabbedTrains), When(grabbedAtEnd, INPUTS));
    var slow := When(automatic && passed, Locked(GrabbedTrains) + When(grabbed, INPUTS));
    var stop := Locked(GrabbedTrains) + When(grabbedAtEnd, INPUTS);
    BothKeep({}, stop, When(granted, Locked(Interlocker)));
    BothKeep({}, slow, stop + When(granted, Locked(Interlocker)));
    BothKeep({}, Under(GrabbedTrains, When(automatic, Locked(DynContainers))),
             slow + (stop + When(granted, Locked(Interlocker))));
  }

  lemma GrantRouteObeys(selected: bool, resets: nat, ticks: nat)
    ensures Keeps({}, ScriptOf(GrantRoute(selected, resets, ticks)))
  {
    var h, poll := {} + {Interlocker}, Locked(DynContainers);
    LockedKeeps(h, DynContainers);
    hide Under, Obeys;
    TimesKeeps(h, resets, poll);
    TimesKeeps(h, ticks, poll);
    BothKeep(h, poll, Times(ticks, poll));
    BothKeep(h, Times(resets, poll), poll + Times(ticks, poll));
    BothKeep(h, poll, Times(resets, poll) + (poll + Times(ticks, poll)));
    UnderKeeps({}, Interlocker, When(selected, poll + (Times(resets, poll) + (poll + Times(ticks, poll)))));
  }

  lemma ShutdownObeys(trains: seq<bool>, interlockers: nat)
    ensures Keeps({}, ScriptOf(Shutdown(trains, interlockers)))
  {
    var h := {} + {StartStop};
    ReleaseTrainsKeeps(h, trains);
    HandshakeKeeps(h + {Interlocker});
    TimesKeeps(h + {Interlocker}, interlockers, HANDSHAKE);
    UnderKeeps(h, Interlocker, Times(interlockers, HANDSHAKE));
    LockedKeeps(h, Actuator);
    hide Under, Obeys;
    BothKeep(h, Under(Interlocker, Times(interlockers, HANDSHAKE)), Locked(Actuator));
    BothKeep(h, ReleaseTrains(trains), Under(Interlocker, Times(interlockers, HANDSHAKE)) + Locked(Actuator));
    UnderKeeps({}, StartStop, ReleaseTrains(trains) + (Under(Interlocker, Times(interlockers, HANDSHAKE)) + Locked(Actuator)));
  }

  lemma StartupObeys(loads: bool, found: bool)
    ensures Keeps({}, ScriptOf(Startup(loads, found)))
  {
    HandshakeKeeps({} + {StartStop} + {Interlocker});
    UnderKeeps({} + {StartStop}, Interlocker, Acquired(found));
    hide Under, Obeys;
    UnderKeeps({}, StartStop, When(loads, Under(Interlocker, Acquired(found))));
  }

  lemma ChangeObeys(slot: bool)
    ensures Keeps({}, ScriptOf(ChangeContainer(slot)))
  {
    var again := [Release(DynContainers), Acquire(DynContainers)];
    assert again[1..] == [Acquire(DynContainers)] && again[1..][1..] == [];
    assert {DynContainers} - {DynContainers} + {DynContainers} == {DynContainers} == {} + {DynContainers};
    assert Obeys({DynContainers} - {DynContainers}, again[1..], {DynContainers});
    UnderKeeps({}, DynContainers, When(slot, again));
  }

  /** Every operation nests its locks upwards and gives back all it takes. */
  lemma OperationsObey(op: Operation)
    ensures Keeps({}, ScriptOf(op))
  {
    match op
    case Actuate(rounds) =>
      InputsKeep({} + {Actuator});
      TimesKeeps({} + {Actuator}, rounds, INPUTS);
      UnderKeeps({}, Actuator, Times(rounds, INPUTS));
    case GrabTrain(free, found) =>
      HandshakeKeeps({} + {GrabbedTrains});
      UnderKeeps({}, GrabbedTrains, When(free, Acquired(found)));
    case ReleaseTrain(valid) =>
      HandshakeKeeps({} + {GrabbedTrains});
      UnderKeeps({}, GrabbedTrains, When(valid, HANDSHAKE));
    case LookUpTrain => LockedKeeps({}, GrabbedTrains);
    case SetTrainSpeed(valid) =>
      LockedKeeps({} + {GrabbedTrains}, DynContainers);
      UnderKeeps({}, GrabbedTrains, When(valid, Locked(DynContainers)));
    case DriveRoute(automatic, passed, grabbed, grabbedAtEnd, granted) =>
      DriveObeys(automatic, passed, grabbed, grabbedAtEnd, granted);
    case UseInterlocking => LockedKeeps({}, Interlocker);
    case GrantRoute(selected, resets, ticks) => GrantRouteObeys(selected, resets, ticks);
    case SetInterlocker(unset, slot, found) =>
      HandshakeKeeps({} + {Interlocker});
      UnderKeeps({}, Interlocker, When(unset && slot, Acquired(found)));
    case UnsetInterlocker(matches) =>
      HandshakeKeeps({} + {Interlocker});
      UnderKeeps({}, Interlocker, When(matches, HANDSHAKE));
    case Startup(loads, found) => StartupObeys(loads, found);
    case Shutdown(trains, interlockers) => ShutdownObeys(trains, interlockers);
    case ChangeContainer(slot) => ChangeObeys(slot);
    case ReadContainers => LockedKeeps({}, DynContainers);
  }

  lemma {:induction false} ThreadsObey(ops: seq<Operation>)
    ensures Keeps({}, Scripts(ops))
    decreases |ops|
  {
    if ops != [] {
      OperationsObey(ops[0]);
      ThreadsObey(ops[1..]);
      BothKeep({}, ScriptOf(ops[0]), Scripts(ops[1..]));
    }
  }

  // ----- threads -----

  datatype Thread = Thread(held: set<Lock>, todo: Script)

  type State = seq<Thread>

  predicate Free(s: State, l: Lock) {
    forall i :: 0 <= i < |s| ==> l !in s[i].held
  }

  predicate CanStep(s: State, i: nat) {
    i < |s| && s[i].todo != [] && (s[i].todo[0].Acquire? ==> Free(s, s[i].todo[0].lock))
  }

  function Advance(t: Thread): Thread
    requires t.todo != []
  {
    var l := t.todo[0].lock;
    Thread(if t.todo[0].Acquire? then t.held + {l} else t.held - {l}, t.todo[1..])
  }

  datatype Step = Spawn(ops: seq<Operation>) | Go(i: nat)

  predicate Enabled(s: State, step: Step) {
    step.Spawn? || CanStep(s, step.i)
  }

  function Apply(s: State, step: Step): State
    requires Enabled(s, step)
  {
    match step
    case Spawn(ops) => s + [Thread({}, Scripts(ops))]
    case Go(i) => s[i := Advance(s[i])]
  }

  predicate IsRun(s: State, steps: seq<Step>)
    decreases |steps|
  {
    steps == [] || (Enabled(s, steps[0]) && IsRun(Apply(s, steps[0]), steps[1..]))
  }

  function After(s: State, steps: seq<Step>): State
    requires IsRun(s, steps)
    decreases |steps|
  {
    if steps == [] then s else After(Apply(s, steps[0]), steps[1..])
  }

  predicate Exclusive(s: State) {
    forall i, j :: 0 <= i < j < |s| ==> s[i].held !! s[j].held
  }

  predicate Obedient(s: State) {
    forall i :: 0 <= i < |s| ==> Obeys(s[i].held, s[i].todo, {})
  }

  lemma StepKeepsOrder(s: State, step: Step)
    requires Exclusive(s) && Obedient(s) && Enabled(s, step)
    ensures Exclusive(Apply(s, step)) && Obedient(Apply(s, step))
  {
    if step.Spawn? {
      ThreadsObey(step.ops);
    }
  }

  lemma {:induction false} RunsKeepOrder(s: State, steps: seq<Step>)
    requires Exclusive(s) && Obedient(s) && IsRun(s, steps)
    ensures Exclusive(After(s, steps)) && Obedient(After(s, steps))
    decreases |steps|
  {
    if steps != [] {
      StepKeepsOrder(s, steps[0]);
      RunsKeepOrder(Apply(s, steps[0]), steps[1..]);
    }
  }

  // ----- no deadlock -----

  /** Thread i wants a lock that thread j holds. */
  predicate WaitsFor(s: State, i: nat, j: nat) {
    i < |s| && j < |s| && s[i].todo != [] && s[i].todo[0].Acquire? && s[i].todo[0].lock in s[j].held
  }

  /** A thread that is waited for is unfinished, and if it waits itself, it waits for something higher. */
  lemma WaitingGoesUp(s: State, i: nat, j: nat)
    requires Obedient(s) && WaitsFor(s, i, j)
    ensures s[j].todo != []
    ensures s[j].todo[0].Acquire? ==> Rank(s[i].todo[0].lock) < Rank(s[j].todo[0].lock)
  {
  }

  lemma {:induction false} SomeoneCanStep(s: State, i: nat) returns (j: nat)
    requires Obedient(s) && i < |s| && s[i].todo != []
    ensures CanStep(s, j)
    decreases if s[i].todo[0].Acquire? then 4 - Rank(s[i].todo[0].lock) else 5
  {
    if CanStep(s, i) {
      j := i;
    } else {
      var k :| 0 <= k < |s| && s[i].todo[0].lock in s[k].held;
      assert WaitsFor(s, i, k);
      WaitingGoesUp(s, i, k);
      if s[k].todo[0].Acquire? {
        j := SomeoneCanStep(s, k);
      } else {
        j := k;
      }
    }
  }

  predicate Unfinished(s: State) {
    exists i :: 0 <= i < |s| && s[i].todo != []
  }

  predicate Chain(s: State, path: seq<nat>) {
    forall k :: 0 <= k < |path| - 1 ==> WaitsFor(s, path[k], path[k + 1])
  }

  lemma {:induction false} ChainsClimb(s: State, path: seq<nat>, n: nat)
    requires Obedient(s) && Chain(s, path) && n + 1 < |path|
    ensures WaitsFor(s, path[0], path[1]) && WaitsFor(s, path[n], path[n + 1])
    ensures Rank(s[path[n]].todo[0].lock) >= n + Rank(s[path[0]].todo[0].lock)
  {
    assert WaitsFor(s, path[0], path[0 + 1]) && WaitsFor(s, path[n], path[n + 1]);
    if n > 0 {
      ChainsClimb(s, path, n - 1);
      WaitingGoesUp(s, path[n - 1], path[n]);
    }
  }

  /** With any number of threads, each performing any operations, in every reachable state: each lock has at most one
      holder, no chain of waiting threads is longer than the order of locks, none closes to a cycle, and as long as a
      thread is unfinished some thread can go on. */
  lemma NoDeadlock(steps: seq<Step>)
    requires IsRun([], steps)
    ensures var s := After([], steps);
            && Exclusive(s)
            && (forall path :: |path| > 0 && Chain(s, path) ==> |path| <= 5)
            && (forall path :: |path| > 1 && Chain(s, path) ==> path[0] != path[|path| - 1])
            && (Unfinished(s) ==> exists j :: CanStep(s, j))
  {
    RunsKeepOrder([], steps);
    var s := After([], steps);
    forall path | |path| > 1 && Chain(s, path) ensures |path| <= 5 && path[0] != path[|path| - 1] {
      ChainIsOpen(s, path);
    }
    if Unfinished(s) {
      var i :| 0 <= i < |s| && s[i].todo != [];
      var j := SomeoneCanStep(s, i);
    }
  }

  lemma ChainIsOpen(s: State, path: seq<nat>)
    requires Obedient(s) && |path| > 1 && Chain(s, path)
    ensures |path| <= 5 && path[0] != path[|path| - 1]
  {
    var n := |path| - 2;
    ChainsClimb(s, path, n);
    WaitingGoesUp(s, path[n], path[n + 1]);
  }
}
