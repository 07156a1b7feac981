/** The interlocking as a transition system: grants and releases run one command at a time under the
    interlocker mutex, while any number of drives set signals to stop and trains move in between. */
module InterlockingRuns {
  import opened RouteTable
  import opened RouteController

  /** What the holder of the interlocker mutex has done so far. */
  datatype Critical =
    | Idle
    | Granting(route: string, points: nat, signals: nat)
    | Releasing(route: string, signals: nat)

  datatype Sys = Sys(track: Track, crit: Critical)

  datatype Step =
    | BeginGrant(sectional: bool, train: string, route: string)  // checks passed, route->train set
    | SetPoint
    | SetSignal
    | EndGrant
    | BeginRelease(route: string)
    | StopSignal(ok: bool)                                       // ok: the command was carried out
    | EndRelease                                                 // route->train cleared
    | MonitorStop(route: string, i: nat)                         // a drive, current or stale, stops a signal
    | Enter(train: string, segment: string)
    | Leave(train: string, segment: string)

  /** A train only enters a segment of a route granted to it. */
  predicate MayEnter(l: Layout, t: Track, train: string, segment: string) {
    segment in l.segments &&
    exists r :: r in t.train && t.train[r] == train && r in l.routes && segment in l.routes[r].path
  }

  predicate Enabled(l: Layout, s: Sys, step: Step)
    requires WellFormed(l)
  {
    match step
    case BeginGrant(sectional, train, route) =>
      s.crit.Idle? && Grant(l, s.track, sectional, train, route).0 == Granted
    case SetPoint =>
      s.crit.Granting? && s.crit.route in l.routes && s.crit.points < |l.routes[s.crit.route].points|
    case SetSignal =>
      s.crit.Granting? && s.crit.route in l.routes && s.crit.points == |l.routes[s.crit.route].points|
      && s.crit.signals < |l.routes[s.crit.route].signals| - 1
    case EndGrant =>
      s.crit.Granting? && s.crit.route in l.routes && s.crit.points == |l.routes[s.crit.route].points|
      && s.crit.signals == |l.routes[s.crit.route].signals| - 1
    case BeginRelease(route) =>
      s.crit.Idle? && route in l.routes && route in s.track.train
    case StopSignal(ok) =>
      s.crit.Releasing? && s.crit.route in l.routes && s.crit.signals < |l.routes[s.crit.route].signals|
    case EndRelease =>
      s.crit.Releasing? && s.crit.route in l.routes && s.crit.signals == |l.routes[s.crit.route].signals|
    case MonitorStop(route, i) =>
      route in l.routes && i < |l.routes[route].signals| - 1
    case Enter(train, segment) =>
      MayEnter(l, s.track, train, segment)
    case Leave(train, segment) =>
      true
  }

  function Apply(l: Layout, s: Sys, step: Step): Sys
    requires WellFormed(l) && Enabled(l, s, step)
  {
    var t := s.track;
    match step
    case BeginGrant(_, train, route) =>
      Sys(t.(train := t.train[route := train]), Granting(route, 0, 0))
    case SetPoint =>
      var p := l.routes[s.crit.route].points[s.crit.points];
      Sys(t.(position := t.position[p.id := p.position]), Granting(s.crit.route, s.crit.points + 1, s.crit.signals))
    case SetSignal =>
      var x := l.routes[s.crit.route].signals[s.crit.signals];
      Sys(t.(aspect := t.aspect[x := Permit(l, x)]), Granting(s.crit.route, s.crit.points, s.crit.signals + 1))
    case EndGrant => s.(crit := Idle)
    case BeginRelease(route) => s.(crit := Releasing(route, 0))
    case StopSignal(ok) =>
      var x := l.routes[s.crit.route].signals[s.crit.signals];
      Sys(if ok then t.(aspect := t.aspect[x := Stop]) else t, Releasing(s.crit.route, s.crit.signals + 1))
    case EndRelease => Sys(t.(train := t.train - {s.crit.route}), Idle)
    case MonitorStop(route, i) =>
      s.(track := t.(aspect := t.aspect[l.routes[route].signals[i] := Stop]))
    case Enter(train, segment) => s.(track := t.(at := t.at + {(train, segment)}))
    case Leave(train, segment) => s.(track := t.(at := t.at - {(train, segment)}))
  }

  /** In any state a train may enter exactly the segments of the routes granted to it, and leave any segment. */
  lemma TrainsMove(l: Layout, s: Sys, train: string, segment: string)
    requires WellFormed(l)
    ensures Enabled(l, s, Enter(train, segment)) <==>
              segment in l.segments
              && exists r :: r in s.track.train && s.track.train[r] == train && r in l.routes && segment in l.routes[r].path
    ensures Enabled(l, s, Enter(train, segment)) ==>
              var s' := Apply(l, s, Enter(train, segment));
              s' == s.(track := s.track.(at := s'.track.at))
              && forall p :: p in s'.track.at <==> p in s.track.at || p == (train, segment)
    ensures Enabled(l, s, Leave(train, segment))
    ensures var s' := Apply(l, s, Leave(train, segment));
            s' == s.(track := s.track.(at := s'.track.at))
            && forall p :: p in s'.track.at <==> p in s.track.at && p != (train, segment)
  {
  }

  predicate IsRun(l: Layout, s: Sys, steps: seq<Step>)
    requires WellFormed(l)
    decreases |steps|
  {
    steps == [] || (Enabled(l, s, steps[0]) && IsRun(l, Apply(l, s, steps[0]), steps[1..]))
  }

  function After(l: Layout, s: Sys, steps: seq<Step>): Sys
    requires WellFormed(l) && IsRun(l, s, steps)
    decreases |steps|
  {
    if steps == [] then s else After(l, Apply(l, s, steps[0]), steps[1..])
  }

  // ----- what the table must say -----

  predicate Symmetric(l: Layout) {
    forall a, b :: a in l.routes && b in l.routes && b in l.routes[a].conflicts ==> a in l.routes[b].conflicts
  }

  predicate SharedSegmentsConflict(l: Layout) {
    forall a, b, x ::
      (a in l.routes && b in l.routes && a != b && x in l.segments && x in l.routes[a].path && x in l.routes[b].path)
      ==> b in l.routes[a].conflicts
  }

  predicate OpposedPointsConflict(l: Layout) {
    forall a, b, p, q ::
      (a in l.routes && b in l.routes && p in l.routes[a].points && q in l.routes[b].points && p.id == q.id && p != q)
      ==> a != b && b in l.routes[a].conflicts
  }

  // ----- what every state satisfies -----

  predicate ConflictFree(l: Layout, t: Track) {
    (forall a :: a in t.train ==> a in l.routes) &&
    forall a, b :: a in t.train && b in t.train && a != b && a in l.routes ==> b !in l.routes[a].conflicts
  }

  /** Number of leading points of a granted route that have been commanded. */
  function PointsDone(l: Layout, s: Sys, route: string): (n: nat)
    requires route in l.routes
    ensures n <= |l.routes[route].points|
  {
    var all := |l.routes[route].points|;
    if s.crit.Granting? && s.crit.route == route && s.crit.points < all then s.crit.points else all
  }

  predicate InPosition(t: Track, p: Point) {
    StandsAt(t.position, p)
  }

  predicate PointsLocked(l: Layout, s: Sys) {
    forall r, i :: r in s.track.train && r in l.routes && 0 <= i < PointsDone(l, s, r) ==>
      InPosition(s.track, l.routes[r].points[i])
  }

  predicate NoSharedSegment(t: Track) {
    forall p, q :: p in t.at && q in t.at && p.1 == q.1 ==> p == q
  }

  /** The segments of a granted route are only occupied by its own train. */
  predicate RouteReserved(l: Layout, t: Track) {
    forall r, p :: r in t.train && r in l.routes && p in t.at && p.1 in l.segments && p.1 in l.routes[r].path ==>
      p.0 == t.train[r]
  }

  predicate CriticalValid(l: Layout, s: Sys) {
    !s.crit.Idle? ==> s.crit.route in l.routes && s.crit.route in s.track.train
  }

  predicate Safe(l: Layout, s: Sys) {
    CriticalValid(l, s) && ConflictFree(l, s.track) && PointsLocked(l, s)
    && NoSharedSegment(s.track) && RouteReserved(l, s.track)
  }

  predicate UnsectionalStep(step: Step) {
    step.BeginGrant? ==> !step.sectional
  }

  predicate Unsectional(steps: seq<Step>) {
    forall i :: 0 <= i < |steps| ==> UnsectionalStep(steps[i])
  }

  lemma GrantKeepsConflictFree(l: Layout, t: Track, train: string, route: string)
    requires WellFormed(l) && Symmetric(l) && ConflictFree(l, t)
    requires Grant(l, t, false, train, route).0 == Granted
    ensures ConflictFree(l, t.(train := t.train[route := train]))
  {
  }

  lemma StepKeepsConflictFree(l: Layout, s: Sys, step: Step)
    requires WellFormed(l) && Symmetric(l) && Enabled(l, s, step) && UnsectionalStep(step)
    requires ConflictFree(l, s.track)
    ensures ConflictFree(l, Apply(l, s, step).track)
  {
    if step.BeginGrant? {
      GrantKeepsConflictFree(l, s.track, step.train, step.route);
    }
  }

  lemma GrantedPointsAgree(l: Layout, t: Track, a: string, b: string, p: Point, q: Point)
    requires OpposedPointsConflict(l) && ConflictFree(l, t) && a in t.train && b in t.train
    requires p in l.routes[a].points && q in l.routes[b].points && p.id == q.id
    ensures p == q
  {
  }

  /** Commanding one granted route's next point leaves the points of all granted routes in position. */
  lemma CommandKeepsPoint(l: Layout, s: Sys, r: string, i: nat)
    requires OpposedPointsConflict(l) && ConflictFree(l, s.track) && PointsLocked(l, s) && CriticalValid(l, s)
    requires s.crit.Granting? && s.crit.points < |l.routes[s.crit.route].points|
    requires r in s.track.train && r in l.routes && i < |l.routes[r].points|
    requires i < PointsDone(l, s, r) || (r == s.crit.route && i == s.crit.points)
    ensures var p := l.routes[s.crit.route].points[s.crit.points];
            InPosition(s.track.(position := s.track.position[p.id := p.position]), l.routes[r].points[i])
  {
    hide OpposedPointsConflict, ConflictFree;
    var p, q := l.routes[s.crit.route].points[s.crit.points], l.routes[r].points[i];
    if q.id == p.id {
      GrantedPointsAgree(l, s.track, s.crit.route, r, p, q);
    }
  }

  lemma SetPointKeepsLocked(l: Layout, s: Sys)
    requires WellFormed(l) && OpposedPointsConflict(l) && Enabled(l, s, SetPoint)
    requires CriticalValid(l, s) && ConflictFree(l, s.track) && PointsLocked(l, s)
    ensures PointsLocked(l, Apply(l, s, SetPoint))
  {
    var s' := Apply(l, s, SetPoint);
    hide OpposedPointsConflict, ConflictFree, WellFormed, InPosition, CriticalValid;
    forall r, i | r in s.track.train && r in l.routes && 0 <= i < PointsDone(l, s', r)
      ensures InPosition(s'.track, l.routes[r].points[i])
    {
      CommandKeepsPoint(l, s, r, i);
    }
  }

  lemma StepKeepsPointsLocked(l: Layout, s: Sys, step: Step)
    requires WellFormed(l) && OpposedPointsConflict(l) && Enabled(l, s, step)
    requires CriticalValid(l, s) && ConflictFree(l, s.track) && PointsLocked(l, s)
    ensures PointsLocked(l, Apply(l, s, step))
  {
    hide OpposedPointsConflict, ConflictFree, HasConflicts, Clear;
    if step.SetPoint? {
      SetPointKeepsLocked(l, s);
    } else {
      var s' := Apply(l, s, step);
      assert forall r :: r in s'.track.train && r in l.routes && 0 < PointsDone(l, s', r) ==>
          r in s.track.train && PointsDone(l, s, r) == PointsDone(l, s', r);
    }
  }

  lemma GrantKeepsReserved(l: Layout, t: Track, train: string, route: string)
    requires WellFormed(l) && RouteReserved(l, t)
    requires Grant(l, t, false, train, route).0 == Granted
    ensures RouteReserved(l, t.(train := t.train[route := train]))
  {
  }

  lemma EnterKeepsReserved(l: Layout, t: Track, train: string, segment: string)
    requires SharedSegmentsConflict(l) && ConflictFree(l, t) && MayEnter(l, t, train, segment)
    requires NoSharedSegment(t) && RouteReserved(l, t)
    ensures var t' := t.(at := t.at + {(train, segment)});
            NoSharedSegment(t') && RouteReserved(l, t')
  {
  }

  lemma StepKeepsReserved(l: Layout, s: Sys, step: Step)
    requires WellFormed(l) && SharedSegmentsConflict(l) && Enabled(l, s, step) && UnsectionalStep(step)
    requires ConflictFree(l, s.track) && NoSharedSegment(s.track) && RouteReserved(l, s.track)
    ensures var t' := Apply(l, s, step).track; NoSharedSegment(t') && RouteReserved(l, t')
  {
    hide SharedSegmentsConflict, ConflictFree, HasConflicts, Clear;
    match step
    case BeginGrant(_, train, route) => GrantKeepsReserved(l, s.track, train, route);
    case Enter(train, segment) => EnterKeepsReserved(l, s.track, train, segment);
    case _ =>
  }

  lemma StepKeepsSafe(l: Layout, s: Sys, step: Step)
    requires WellFormed(l) && Symmetric(l) && SharedSegmentsConflict(l) && OpposedPointsConflict(l)
    requires Safe(l, s) && Enabled(l, s, step) && UnsectionalStep(step)
    ensures Safe(l, Apply(l, s, step))
  {
    StepKeepsConflictFree(l, s, step);
    StepKeepsPointsLocked(l, s, step);
    StepKeepsReserved(l, s, step);
    hide ConflictFree, PointsLocked, NoSharedSegment, RouteReserved, Symmetric, SharedSegmentsConflict,
         OpposedPointsConflict, HasConflicts, Clear;
  }

  /** In every state of every run without sectional grants: no two granted routes conflict, every point of a
      fully granted route stands as required, no segment holds two trains, and a granted route's segments are
      free of other trains. */
  lemma {:induction false} RunsAreSafe(l: Layout, s: Sys, steps: seq<Step>)
    requires WellFormed(l) && Symmetric(l) && SharedSegmentsConflict(l) && OpposedPointsConflict(l)
    requires Safe(l, s) && IsRun(l, s, steps) && Unsectional(steps)
    ensures Safe(l, After(l, s, steps))
    decreases |steps|
  {
    if steps != [] {
      StepKeepsSafe(l, s, steps[0]);
      RunsAreSafe(l, Apply(l, s, steps[0]), steps[1..]);
    }
  }

  lemma StartIsSafe(l: Layout, t: Track)
    requires t.train == map[] && NoSharedSegment(t)
    ensures Safe(l, Sys(t, Idle))
  {
  }

  /** Spelled out, from a track with no route granted: whatever happens without sectional grants, no two granted routes
      conflict; no two trains stand on one segment; on the segments of a granted route stands only its train; and while
      no grant is under way, each point of each granted route is commanded to its required position. */
  lemma NothingCollides(l: Layout, t: Track, steps: seq<Step>)
    requires WellFormed(l) && Symmetric(l) && SharedSegmentsConflict(l) && OpposedPointsConflict(l)
    requires t.train == map[] && forall p, q :: p in t.at && q in t.at && p.1 == q.1 ==> p.0 == q.0
    requires IsRun(l, Sys(t, Idle), steps) && Unsectional(steps)
    ensures var s := After(l, Sys(t, Idle), steps);
            var now := s.track;
            && (forall a :: a in now.train ==> a in l.routes)
            && (forall a, b :: a in now.train && b in now.train && a != b ==> b !in l.routes[a].conflicts)
            && (forall p, q :: p in now.at && q in now.at && p.1 == q.1 ==> p.0 == q.0)
            && (forall r, p :: r in now.train && p in now.at && p.1 in l.segments && p.1 in l.routes[r].path ==>
                  p.0 == now.train[r])
            && (!s.crit.Granting? ==> forall r, i :: r in now.train && 0 <= i < |l.routes[r].points| ==>
                  var p := l.routes[r].points[i]; p.id in now.position && now.position[p.id] == p.position)
  {
    assert forall p, q :: p in t.at && q in t.at && p.1 == q.1 && p.0 == q.0 ==> p == q;
    StartIsSafe(l, t);
    RunsAreSafe(l, Sys(t, Idle), steps);
    var s := After(l, Sys(t, Idle), steps);
    hide After, IsRun, Symmetric, SharedSegmentsConflict, OpposedPointsConflict, WellFormed;
    if !s.crit.Granting? {
      forall r, i | r in s.track.train && 0 <= i < |l.routes[r].points|
        ensures var p := l.routes[r].points[i]; p.id in s.track.position && s.track.position[p.id] == p.position
      {
        assert InPosition(s.track, l.routes[r].points[i]);
      }
    }
  }

  // ----- permissive signals have an owner -----

  predicate OwnedBy(l: Layout, t: Track, signal: string, route: string) {
    route in t.train && route in l.routes && |l.routes[route].signals| > 0
    && signal in l.routes[route].signals[..|l.routes[route].signals| - 1]
  }

  ghost predicate SignalsOwned(l: Layout, t: Track) {
    forall x :: t.Permissive(x) ==> exists r :: OwnedBy(l, t, x, r)
  }

  /** Whatever the released route leaves permissive also belongs to another granted route. */
  ghost predicate OthersOwn(l: Layout, t: Track, route: string)
    requires route in l.routes
  {
    forall x :: x in l.routes[route].signals && t.Permissive(x) ==> exists r :: r != route && OwnedBy(l, t, x, r)
  }

  /** Whenever a route is freed, others own what it leaves permissive. */
  ghost predicate ReleasesLeaveOwners(l: Layout, s: Sys, steps: seq<Step>)
    requires WellFormed(l) && IsRun(l, s, steps)
    decreases |steps|
  {
    steps != [] ==>
      (steps[0].EndRelease? ==> OthersOwn(l, s.track, s.crit.route))
      && ReleasesLeaveOwners(l, Apply(l, s, steps[0]), steps[1..])
  }

  ghost predicate OwnedThroughout(l: Layout, s: Sys, steps: seq<Step>)
    requires WellFormed(l) && IsRun(l, s, steps)
    decreases |steps|
  {
    SignalsOwned(l, s.track) && (steps != [] ==> OwnedThroughout(l, Apply(l, s, steps[0]), steps[1..]))
  }

  lemma SetSignalKeepsOwned(l: Layout, s: Sys)
    requires WellFormed(l) && CriticalValid(l, s) && SignalsOwned(l, s.track) && Enabled(l, s, SetSignal)
    ensures SignalsOwned(l, Apply(l, s, SetSignal).track)
  {
    var t, t' := s.track, Apply(l, s, SetSignal).track;
    var signals := l.routes[s.crit.route].signals;
    var x := signals[s.crit.signals];
    assert signals[..|signals| - 1][s.crit.signals] == x;
    forall y | t'.Permissive(y) ensures exists r :: OwnedBy(l, t', y, r) {
      if y == x {
        assert OwnedBy(l, t', x, s.crit.route);
      } else {
        assert t.Permissive(y);
        var r :| OwnedBy(l, t, y, r);
        assert OwnedBy(l, t', y, r);
      }
    }
  }

  /** A step that permits no signal and takes no train away keeps every owner. */
  lemma OwnersCarryOver(l: Layout, t: Track, t': Track)
    requires SignalsOwned(l, t)
    requires forall x :: t'.Permissive(x) ==> t.Permissive(x)
    requires forall r :: r in t.train ==> r in t'.train
    ensures SignalsOwned(l, t')
  {
    forall x | t'.Permissive(x) ensures exists r :: OwnedBy(l, t', x, r) {
      var r :| OwnedBy(l, t, x, r);
      assert OwnedBy(l, t', x, r);
    }
  }

  /** Freeing a route keeps every permissive signal owned exactly when others own what it leaves permissive. */
  lemma FreeingKeepsOwnersIff(l: Layout, t: Track, route: string)
    requires WellFormed(l) && SignalsOwned(l, t) && route in l.routes
    ensures SignalsOwned(l, t.(train := t.train - {route})) <==> OthersOwn(l, t, route)
  {
    var t' := t.(train := t.train - {route});
    assert forall x :: t'.Permissive(x) <==> t.Permissive(x);
    assert forall x, r :: OwnedBy(l, t', x, r) <==> r != route && OwnedBy(l, t, x, r);
    assert forall x :: OwnedBy(l, t, x, route) ==> x in l.routes[route].signals;
    hide OwnedBy;
    if OthersOwn(l, t, route) {
      forall x | t'.Permissive(x) ensures exists r :: OwnedBy(l, t', x, r) {
        var r :| OwnedBy(l, t, x, r) && (x in l.routes[route].signals ==> r != route);
        assert OwnedBy(l, t', x, r);
      }
    }
    if SignalsOwned(l, t') {
      forall x | x in l.routes[route].signals && t.Permissive(x) ensures exists r :: r != route && OwnedBy(l, t, x, r) {
        var r :| OwnedBy(l, t', x, r);
      }
    }
  }

  lemma StepKeepsCriticalValid(l: Layout, s: Sys, step: Step)
    requires WellFormed(l) && CriticalValid(l, s) && Enabled(l, s, step)
    ensures CriticalValid(l, Apply(l, s, step))
  {
    hide HasConflicts, Clear;
  }

  lemma StepKeepsOwnersIff(l: Layout, s: Sys, step: Step)
    requires WellFormed(l) && CriticalValid(l, s) && SignalsOwned(l, s.track) && Enabled(l, s, step)
    ensures SignalsOwned(l, Apply(l, s, step).track) <==> (step.EndRelease? ==> OthersOwn(l, s.track, s.crit.route))
  {
    match step
    case SetSignal => SetSignalKeepsOwned(l, s);
    case EndRelease => FreeingKeepsOwnersIff(l, s.track, s.crit.route);
    case _ => OwnersCarryOver(l, s.track, Apply(l, s, step).track);
  }

  /** Under any interleaving, in either mode, and whichever stop commands fail: every permissive signal is a non-final
      signal of a granted route in all states of a run if and only if, whenever a route is freed, each signal it leaves
      permissive also belongs to another granted route. */
  lemma {:induction false} RunsKeepSignalsOwnedIff(l: Layout, s: Sys, steps: seq<Step>)
    requires WellFormed(l) && CriticalValid(l, s) && SignalsOwned(l, s.track) && IsRun(l, s, steps)
    ensures OwnedThroughout(l, s, steps) <==> ReleasesLeaveOwners(l, s, steps)
    decreases |steps|
  {
    if steps != [] {
      var s' := Apply(l, s, steps[0]);
      StepKeepsOwnersIff(l, s, steps[0]);
      StepKeepsCriticalValid(l, s, steps[0]);
      hide Enabled, Apply, SignalsOwned, OthersOwn, CriticalValid;
      if SignalsOwned(l, s'.track) {
        RunsKeepSignalsOwnedIff(l, s', steps[1..]);
      }
    }
  }

  /** While a route is being released, the signals already stopped stay stopped. */
  predicate StoppedSoFar(l: Layout, s: Sys) {
    s.crit.Releasing? && s.crit.route in l.routes ==>
      forall i :: 0 <= i < s.crit.signals && i < |l.routes[s.crit.route].signals| ==>
        !s.track.Permissive(l.routes[s.crit.route].signals[i])
  }

  predicate CommandsSucceed(steps: seq<Step>) {
    forall i :: 0 <= i < |steps| && steps[i].StopSignal? ==> steps[i].ok
  }

  lemma StepKeepsStopped(l: Layout, s: Sys, step: Step)
    requires WellFormed(l) && StoppedSoFar(l, s) && Enabled(l, s, step) && (step.StopSignal? ==> step.ok)
    ensures StoppedSoFar(l, Apply(l, s, step))
  {
    hide HasConflicts, Clear;
  }

  /** In particular when all stop commands succeed: a route is only freed with its signals at Stop. */
  lemma {:induction false} SucceedingCommandsLeaveOwners(l: Layout, s: Sys, steps: seq<Step>)
    requires WellFormed(l) && StoppedSoFar(l, s) && IsRun(l, s, steps) && CommandsSucceed(steps)
    ensures ReleasesLeaveOwners(l, s, steps)
    decreases |steps|
  {
    if steps != [] {
      StepKeepsStopped(l, s, steps[0]);
      if steps[0].EndRelease? {
        assert forall i :: 0 <= i < s.crit.signals ==> !s.track.Permissive(l.routes[s.crit.route].signals[i]);
      }
      hide StoppedSoFar;
      SucceedingCommandsLeaveOwners(l, Apply(l, s, steps[0]), steps[1..]);
    }
  }

  lemma {:induction false} ThroughoutMeansAfter(l: Layout, s: Sys, steps: seq<Step>)
    requires WellFormed(l) && IsRun(l, s, steps) && OwnedThroughout(l, s, steps)
    ensures SignalsOwned(l, After(l, s, steps).track)
    decreases |steps|
  {
    hide SignalsOwned;
    if steps != [] {
      ThroughoutMeansAfter(l, Apply(l, s, steps[0]), steps[1..]);
    }
  }

  /** From all signals at Stop, as long as stop commands succeed, no permissive signal is ever without an owner. */
  lemma RunsKeepSignalsOwned(l: Layout, t: Track, steps: seq<Step>)
    requires WellFormed(l) && forall x :: !t.Permissive(x)
    requires IsRun(l, Sys(t, Idle), steps) && CommandsSucceed(steps)
    ensures OwnedThroughout(l, Sys(t, Idle), steps) && SignalsOwned(l, After(l, Sys(t, Idle), steps).track)
  {
    SucceedingCommandsLeaveOwners(l, Sys(t, Idle), steps);
    RunsKeepSignalsOwnedIff(l, Sys(t, Idle), steps);
    ThroughoutMeansAfter(l, Sys(t, Idle), steps);
  }

  /** Spelled out: in such a run every signal showing go or shunt stands, before the last one, on a granted route. */
  lemma PermissiveMeansGranted(l: Layout, t: Track, steps: seq<Step>, x: string)
    requires WellFormed(l) && forall y :: !t.Permissive(y)
    requires IsRun(l, Sys(t, Idle), steps) && CommandsSucceed(steps)
    requires After(l, Sys(t, Idle), steps).track.AspectOf(x) != Stop
    ensures exists r, i :: r in After(l, Sys(t, Idle), steps).track.train && r in l.routes
                           && 0 <= i < |l.routes[r].signals| - 1 && l.routes[r].signals[i] == x
  {
    RunsKeepSignalsOwned(l, t, steps);
    var now := After(l, Sys(t, Idle), steps).track;
    assert now.Permissive(x);
    var r :| OwnedBy(l, now, x, r);
    var front := l.routes[r].signals[..|l.routes[r].signals| - 1];
    var i :| 0 <= i < |front| && front[i] == x;
    assert l.routes[r].signals[i] == x;
  }

  /** A release frees the route even when stop commands fail. The owner property then survives exactly when each
      permissive signal whose command fails also belongs to another granted route. */
  lemma ReleaseKeepsOwnersIff(l: Layout, t: Track, route: string, failing: set<string>)
    requires WellFormed(l) && SignalsOwned(l, t) && route in l.routes && route in t.train
    ensures SignalsOwned(l, Release(l, t, route, failing).1) <==>
            forall x :: x in l.routes[route].signals && x in failing && t.Permissive(x) ==>
              exists r :: r != route && OwnedBy(l, t, x, r)
  {
    var t' := Release(l, t, route, failing).1;
    var signals := l.routes[route].signals;
    forall x ensures t'.Permissive(x) <==> t.Permissive(x) && (x !in signals || x in failing) {
      SignalsStoppedMeaning(t, signals, failing, |signals|, x);
      assert signals[..|signals|] == signals;
    }
    assert forall x, r :: OwnedBy(l, t', x, r) <==> r != route && OwnedBy(l, t, x, r);
    if forall x :: x in signals && x in failing && t.Permissive(x) ==> exists r :: r != route && OwnedBy(l, t, x, r) {
      forall x | t'.Permissive(x) ensures exists r :: OwnedBy(l, t', x, r) {
        var r :| OwnedBy(l, t, x, r) && (x in signals ==> r != route);
        assert OwnedBy(l, t, x, route) ==> x in signals;
        assert OwnedBy(l, t', x, r);
      }
    }
    if SignalsOwned(l, t') {
      forall x | x in signals && x in failing && t.Permissive(x) ensures exists r :: r != route && OwnedBy(l, t, x, r) {
        assert t'.Permissive(x);
        var r :| OwnedBy(l, t', x, r);
      }
    }
  }

  /** It does break: grant any route while all signals show Stop and no other route is granted, and release it while
      the stop command of one of its signals fails. That signal stays permissive and nobody owns it. */
  lemma FailedStopOrphansSignal(l: Layout, t: Track, sectional: bool, train: string, route: string, i: nat)
    requires WellFormed(l) && t.train == map[] && forall x :: !t.Permissive(x)
    requires Grant(l, t, sectional, train, route).0 == Granted && i < |l.routes[route].signals| - 1
    ensures var x := l.routes[route].signals[i];
            var granted := Grant(l, t, sectional, train, route).1;
            var released := Release(l, granted, route, {x}).1;
            SignalsOwned(l, granted) && released.Permissive(x) && !SignalsOwned(l, released)
  {
    var signals := l.routes[route].signals;
    var front := signals[..|signals| - 1];
    var x := signals[i];
    var granted := Grant(l, t, sectional, train, route).1;
    GrantMeaning(l, t, sectional, train, route);
    assert front[i] == x;
    forall y | granted.Permissive(y) ensures exists r :: OwnedBy(l, granted, y, r) {
      assert !t.Permissive(y) && granted.AspectOf(y) != Stop;
      assert OwnedBy(l, granted, y, route);
    }
    hide Grant, HasConflicts, Clear;
    assert granted.Permissive(x);
    SignalsStoppedMeaning(granted, signals, {x}, |signals|, x);
    ReleaseKeepsOwnersIff(l, granted, route, {x});
    assert forall r :: OwnedBy(l, granted, x, r) ==> r == route;
  }

  // ----- the controller's operations are runs -----

  function Repeat(step: Step, n: nat): seq<Step> {
    if n == 0 then [] else [step] + Repeat(step, n - 1)
  }

  lemma {:induction false} RunAppend(l: Layout, s: Sys, a: seq<Step>, b: seq<Step>)
    requires WellFormed(l) && IsRun(l, s, a) && IsRun(l, After(l, s, a), b)
    ensures IsRun(l, s, a + b) && After(l, s, a + b) == After(l, After(l, s, a), b)
    decreases |a|
  {
    hide Enabled, Apply;
    if a == [] {
      assert a + b == b;
    } else {
      assert (a + b)[0] == a[0] && (a + b)[1..] == a[1..] + b;
      RunAppend(l, Apply(l, s, a[0]), a[1..], b);
    }
  }

  lemma {:induction false} SetPointsRun(l: Layout, t: Track, position: map<string, Position>, route: string, i: nat)
    requires WellFormed(l) && route in l.routes && i <= |l.routes[route].points|
    requires t.position == PointsSet(position, l.routes[route].points, i)
    ensures var points := l.routes[route].points;
            var s := Sys(t, Granting(route, i, 0));
            var steps := Repeat(SetPoint, |points| - i);
            IsRun(l, s, steps) &&
            After(l, s, steps) == Sys(t.(position := PointsSet(position, points, |points|)), Granting(route, |points|, 0))
    decreases |l.routes[route].points| - i
  {
    var points := l.routes[route].points;
    if i < |points| {
      var t' := t.(position := t.position[points[i].id := points[i].position]);
      SetPointsRun(l, t', position, route, i + 1);
      var steps := Repeat(SetPoint, |points| - i);
      assert steps[0] == SetPoint && steps[1..] == Repeat(SetPoint, |points| - (i + 1));
      assert Apply(l, Sys(t, Granting(route, i, 0)), SetPoint) == Sys(t', Granting(route, i + 1, 0));
    }
  }

  lemma {:induction false} SetSignalsRun(l: Layout, t: Track, aspect: map<string, Aspect>, route: string, i: nat)
    requires WellFormed(l) && route in l.routes && i < |l.routes[route].signals|
    requires t.aspect == SignalsSet(l, aspect, l.routes[route].signals, i)
    ensures var r := l.routes[route];
            var s := Sys(t, Granting(route, |r.points|, i));
            var steps := Repeat(SetSignal, |r.signals| - 1 - i);
            IsRun(l, s, steps) &&
            After(l, s, steps) == Sys(t.(aspect := SignalsSet(l, aspect, r.signals, |r.signals| - 1)),
                                      Granting(route, |r.points|, |r.signals| - 1))
    decreases |l.routes[route].signals| - i
  {
    var r := l.routes[route];
    if i < |r.signals| - 1 {
      var t' := t.(aspect := t.aspect[r.signals[i] := Permit(l, r.signals[i])]);
      SetSignalsRun(l, t', aspect, route, i + 1);
      var steps := Repeat(SetSignal, |r.signals| - 1 - i);
      assert steps[0] == SetSignal && steps[1..] == Repeat(SetSignal, |r.signals| - 1 - (i + 1));
      assert Apply(l, Sys(t, Granting(route, |r.points|, i)), SetSignal) == Sys(t', Granting(route, |r.points|, i + 1));
    }
  }

  function GrantSteps(l: Layout, sectional: bool, train: string, route: string): seq<Step>
    requires WellFormed(l) && route in l.routes
  {
    [BeginGrant(sectional, train, route)]
    + (Repeat(SetPoint, |l.routes[route].points|)
       + (Repeat(SetSignal, |l.routes[route].signals| - 1) + [EndGrant]))
  }

  /** What `grant_route_id` does when it grants is one uninterrupted run. */
  lemma GrantIsRun(l: Layout, t: Track, sectional: bool, train: string, route: string)
    requires WellFormed(l) && Grant(l, t, sectional, train, route).0 == Granted
    ensures var steps := GrantSteps(l, sectional, train, route);
            IsRun(l, Sys(t, Idle), steps) &&
            After(l, Sys(t, Idle), steps) == Sys(Grant(l, t, sectional, train, route).1, Idle)
  {
    var r := l.routes[route];
    var t1 := t.(train := t.train[route := train]);
    var t2 := t1.(position := PointsSet(t.position, r.points, |r.points|));
    var t3 := t2.(aspect := SignalsSet(l, t.aspect, r.signals, |r.signals| - 1));
    SetPointsRun(l, t1, t.position, route, 0);
    SetSignalsRun(l, t2, t.aspect, route, 0);
    var begin := BeginGrant(sectional, train, route);
    SingleStep(l, Sys(t, Idle), begin);
    SingleStep(l, Sys(t3, Granting(route, |r.points|, |r.signals| - 1)), EndGrant);
    hide Enabled, Apply;
    RunAppend(l, Sys(t2, Granting(route, |r.points|, 0)), Repeat(SetSignal, |r.signals| - 1), [EndGrant]);
    RunAppend(l, Sys(t1, Granting(route, 0, 0)), Repeat(SetPoint, |r.points|), Repeat(SetSignal, |r.signals| - 1) + [EndGrant]);
    RunAppend(l, Sys(t, Idle), [begin],
              Repeat(SetPoint, |r.points|) + (Repeat(SetSignal, |r.signals| - 1) + [EndGrant]));
  }

  lemma SingleStep(l: Layout, s: Sys, step: Step)
    requires WellFormed(l) && Enabled(l, s, step)
    ensures IsRun(l, s, [step]) && After(l, s, [step]) == Apply(l, s, step)
  {
  }

  lemma RunFirst(l: Layout, s: Sys, step: Step, rest: seq<Step>)
    requires WellFormed(l) && Enabled(l, s, step) && IsRun(l, Apply(l, s, step), rest)
    ensures IsRun(l, s, [step] + rest) && After(l, s, [step] + rest) == After(l, Apply(l, s, step), rest)
  {
    hide Enabled, Apply;
    assert ([step] + rest)[1..] == rest;
  }

  function StopSteps(signals: seq<string>, failing: set<string>): seq<Step> {
    if signals == [] then [] else [StopSignal(signals[0] !in failing)] + StopSteps(signals[1..], failing)
  }

  lemma {:induction false} StopSignalsRun(l: Layout, t: Track, aspect: map<string, Aspect>, route: string,
                                          failing: set<string>, i: nat)
    requires WellFormed(l) && route in l.routes && i <= |l.routes[route].signals|
    requires t.aspect == SignalsStopped(aspect, l.routes[route].signals, failing, i)
    ensures var signals := l.routes[route].signals;
            var s := Sys(t, Releasing(route, i));
            var steps := StopSteps(signals[i..], failing);
            IsRun(l, s, steps) &&
            After(l, s, steps) == Sys(t.(aspect := SignalsStopped(aspect, signals, failing, |signals|)),
                                      Releasing(route, |signals|))
    decreases |l.routes[route].signals| - i
  {
    var signals := l.routes[route].signals;
    var s := Sys(t, Releasing(route, i));
    if i < |signals| {
      var step := StopSignal(signals[i] !in failing);
      var t' := if step.ok then t.(aspect := t.aspect[signals[i] := Stop]) else t;
      assert Enabled(l, s, step) && Apply(l, s, step) == Sys(t', Releasing(route, i + 1));
      StopSignalsRun(l, t', aspect, route, failing, i + 1);
      hide Enabled, Apply, SignalsStopped, WellFormed;
      var steps := StopSteps(signals[i..], failing);
      assert signals[i..][1..] == signals[i + 1..];
      assert steps[0] == step && steps[1..] == StopSteps(signals[i + 1..], failing);
    }
  }

  /** What `release_route` does to a granted route is one uninterrupted run. */
  lemma ReleaseIsRun(l: Layout, t: Track, route: string, failing: set<string>)
    requires WellFormed(l) && route in l.routes && route in t.train
    ensures var steps := [BeginRelease(route)] + (StopSteps(l.routes[route].signals, failing) + [EndRelease]);
            IsRun(l, Sys(t, Idle), steps) &&
            After(l, Sys(t, Idle), steps) == Sys(Release(l, t, route, failing).1, Idle)
  {
    var signals := l.routes[route].signals;
    var t1 := t.(aspect := SignalsStopped(t.aspect, signals, failing, |signals|));
    StopSignalsRun(l, t, t.aspect, route, failing, 0);
    assert signals[0..] == signals;
    SingleStep(l, Sys(t, Idle), BeginRelease(route));
    SingleStep(l, Sys(t1, Releasing(route, |signals|)), EndRelease);
    hide Enabled, Apply;
    RunAppend(l, Sys(t, Releasing(route, 0)), StopSteps(signals, failing), [EndRelease]);
    RunAppend(l, Sys(t, Idle), [BeginRelease(route)], StopSteps(signals, failing) + [EndRelease]);
  }
}
