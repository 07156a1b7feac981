/** Granting and releasing routes (the direct, route-id based operations of the controller). */
module RouteController {
  import opened RouteTable
  import opened SectionalCheck

  datatype Reply = Granted | NotKnown | AlreadyGranted | NotGrantable | NotClear

  /** Every route has a destination signal: granting sets all signals but the last. */
  predicate WellFormed(l: Layout) {
    l.segments !! l.signals && forall r :: r in l.routes ==> |l.routes[r].signals| > 0
  }

  // ----- the two checks -----

  predicate Blocking(l: Layout, t: Track, sectional: bool, conflict: string, requested: string) {
    conflict in l.routes && conflict in t.train && !(sectional && ConflictSafe(l, t, conflict, requested))
  }

  predicate HasConflicts(l: Layout, t: Track, sectional: bool, route: string) {
    route in l.routes &&
    exists i :: 0 <= i < |l.routes[route].conflicts| && Blocking(l, t, sectional, l.routes[route].conflicts[i], route)
  }

  predicate Clear(l: Layout, t: Track, route: string)
    requires route in l.routes
  {
    var r := l.routes[route];
    (forall i :: 0 <= i < |r.signals| ==> !t.Permissive(r.signals[i])) &&
    (forall i :: 0 <= i < |r.path| ==> r.path[i] in l.segments ==> !t.Occupied(r.path[i]))
  }

  // ----- the commands of granting and releasing -----

  function PointsSet(position: map<string, Position>, points: seq<Point>, n: nat): map<string, Position>
    requires n <= |points|
  {
    if n == 0 then position else PointsSet(position, points, n - 1)[points[n - 1].id := points[n - 1].position]
  }

  function Permit(l: Layout, signal: string): Aspect {
    if signal in l.shunting then Shunt else Go
  }

  function SignalsSet(l: Layout, aspect: map<string, Aspect>, signals: seq<string>, n: nat): map<string, Aspect>
    requires n <= |signals|
  {
    if n == 0 then aspect else SignalsSet(l, aspect, signals, n - 1)[signals[n - 1] := Permit(l, signals[n - 1])]
  }

  /** Stop commands to the first n signals; those in `failing` are not carried out. */
  function SignalsStopped(aspect: map<string, Aspect>, signals: seq<string>, failing: set<string>, n: nat):
    map<string, Aspect>
    requires n <= |signals|
  {
    if n == 0 then aspect
    else
      var before := SignalsStopped(aspect, signals, failing, n - 1);
      if signals[n - 1] in failing then before else before[signals[n - 1] := Stop]
  }

  function Grant(l: Layout, t: Track, sectional: bool, train: string, route: string): (Reply, Track)
    requires WellFormed(l)
  {
    if route !in l.routes then (NotKnown, t)
    else if route in t.train then (AlreadyGranted, t)
    else if HasConflicts(l, t, sectional, route) then (NotGrantable, t)
    else if !Clear(l, t, route) then (NotClear, t)
    else
      var r := l.routes[route];
      (Granted, t.(train := t.train[route := train],
                   position := PointsSet(t.position, r.points, |r.points|),
                   aspect := SignalsSet(l, t.aspect, r.signals, |r.signals| - 1)))
  }

  /** The route is freed whether or not every signal could be stopped. */
  function Release(l: Layout, t: Track, route: string, failing: set<string>): (bool, Track) {
    if route in l.routes && route in t.train then
      var r := l.routes[route];
      (true, t.(train := t.train - {route}, aspect := SignalsStopped(t.aspect, r.signals, failing, |r.signals|)))
    else (false, t)
  }

  // ----- what the commands amount to -----

  lemma {:induction false} PointIsSet(position: map<string, Position>, points: seq<Point>, n: nat, p: Point)
    requires n <= |points| && p in points[..n]
    requires forall i :: 0 <= i < n && points[i].id == p.id ==> points[i] == p
    ensures p.id in PointsSet(position, points, n) && PointsSet(position, points, n)[p.id] == p.position
  {
    if points[n - 1].id != p.id {
      assert points[..n] == points[..n - 1] + [points[n - 1]];
      PointIsSet(position, points, n - 1, p);
    }
  }

  lemma {:induction false} PointIsKept(position: map<string, Position>, points: seq<Point>, n: nat, x: string)
    requires n <= |points| && forall i :: 0 <= i < n ==> points[i].id != x
    ensures x in PointsSet(position, points, n) <==> x in position
    ensures x in position ==> PointsSet(position, points, n)[x] == position[x]
  {
    if n > 0 {
      PointIsKept(position, points, n - 1, x);
    }
  }

  lemma {:induction false} SignalsSetMeaning(l: Layout, t: Track, signals: seq<string>, n: nat, s: string)
    requires n <= |signals|
    ensures t.(aspect := SignalsSet(l, t.aspect, signals, n)).AspectOf(s)
         == if s !in signals[..n] then t.AspectOf(s) else if s in l.shunting then Shunt else Go
  {
    if n > 0 {
      SignalsSetMeaning(l, t, signals, n - 1, s);
      assert signals[..n] == signals[..n - 1] + [signals[n - 1]];
    }
  }

  lemma {:induction false} SignalsStoppedMeaning(t: Track, signals: seq<string>, failing: set<string>, n: nat, s: string)
    requires n <= |signals|
    ensures t.(aspect := SignalsStopped(t.aspect, signals, failing, n)).AspectOf(s)
         == if s in signals[..n] && s !in failing then Stop else t.AspectOf(s)
  {
    if n > 0 {
      SignalsStoppedMeaning(t, signals, failing, n - 1, s);
      assert signals[..n] == signals[..n - 1] + [signals[n - 1]];
    }
  }

  /** The point has been commanded to its position. */
  predicate StandsAt(position: map<string, Position>, p: Point) {
    p.id in position && position[p.id] == p.position
  }

  predicate SamePosition(now: map<string, Position>, was: map<string, Position>, x: string) {
    (x in now <==> x in was) && (x in was ==> now[x] == was[x])
  }

  /** The last required position of a point is the one it stands in. */
  lemma {:induction false} LastPositionHolds(position: map<string, Position>, points: seq<Point>, n: nat, i: nat)
    requires i < n <= |points| && forall k :: i < k < n ==> points[k].id != points[i].id
    ensures points[i].id in PointsSet(position, points, n)
    ensures PointsSet(position, points, n)[points[i].id] == points[i].position
  {
    if i < n - 1 {
      LastPositionHolds(position, points, n - 1, i);
    }
  }

  lemma GrantedTrack(l: Layout, t: Track, sectional: bool, train: string, route: string)
    requires WellFormed(l) && Grant(l, t, sectional, train, route).0 == Granted
    ensures route in l.routes && |l.routes[route].signals| > 0
    ensures var r := l.routes[route];
            Grant(l, t, sectional, train, route).1
            == t.(train := t.train[route := train], position := PointsSet(t.position, r.points, |r.points|),
                  aspect := SignalsSet(l, t.aspect, r.signals, |r.signals| - 1))
  {
    hide HasConflicts, Clear, PointsSet, SignalsSet;
  }

  /** A granted route shows shunt or go by type on every signal but the last, has each point as it last requires it,
      belongs to the train, and nothing else has changed. */
  lemma GrantMeaning(l: Layout, t: Track, sectional: bool, train: string, route: string)
    requires WellFormed(l) && Grant(l, t, sectional, train, route).0 == Granted
    ensures route in l.routes && |l.routes[route].signals| > 0
    ensures var r := l.routes[route];
            var t' := Grant(l, t, sectional, train, route).1;
            && t'.train == t.train[route := train] && t'.at == t.at
            && (forall s :: t'.AspectOf(s) == if s !in r.signals[..|r.signals| - 1] then t.AspectOf(s)
                                              else if s in l.shunting then Shunt else Go)
            && (forall i :: 0 <= i < |r.points| && (forall k :: i < k < |r.points| ==> r.points[k].id != r.points[i].id) ==>
                  StandsAt(t'.position, r.points[i]))
            && (forall p :: p in r.points && (forall i :: 0 <= i < |r.points| && r.points[i].id == p.id ==> r.points[i] == p) ==>
                  StandsAt(t'.position, p))
            && (forall x :: (forall i :: 0 <= i < |r.points| ==> r.points[i].id != x) ==>
                  SamePosition(t'.position, t.position, x))
  {
    GrantedTrack(l, t, sectional, train, route);
    hide *;
    var r := l.routes[route];
    var t' := Grant(l, t, sectional, train, route).1;
    forall s ensures t'.AspectOf(s) == if s !in r.signals[..|r.signals| - 1] then t.AspectOf(s)
                                       else if s in l.shunting then Shunt else Go {
      SignalsSetMeaning(l, t, r.signals, |r.signals| - 1, s);
      SameAspects(t', t.(aspect := SignalsSet(l, t.aspect, r.signals, |r.signals| - 1)), s);
    }
    PointsMeaning(t.position, r.points);
  }

  lemma SameAspects(t: Track, t': Track, s: string)
    requires t.aspect == t'.aspect
    ensures t.AspectOf(s) == t'.AspectOf(s)
  {
  }

  /** All points required: the last requirement of each holds, and points without one are left alone. */
  lemma PointsMeaning(position: map<string, Position>, points: seq<Point>)
    ensures var now := PointsSet(position, points, |points|);
            && (forall i :: 0 <= i < |points| && (forall k :: i < k < |points| ==> points[k].id != points[i].id) ==>
                  StandsAt(now, points[i]))
            && (forall p :: p in points && (forall i :: 0 <= i < |points| && points[i].id == p.id ==> points[i] == p) ==>
                  StandsAt(now, p))
            && (forall x :: (forall i :: 0 <= i < |points| ==> points[i].id != x) ==>
                  SamePosition(now, position, x))
  {
    var now := PointsSet(position, points, |points|);
    hide PointsSet;
    forall i | 0 <= i < |points| && (forall k :: i < k < |points| ==> points[k].id != points[i].id)
      ensures StandsAt(now, points[i])
    {
      LastPositionHolds(position, points, |points|, i);
    }
    forall p | p in points && (forall i :: 0 <= i < |points| && points[i].id == p.id ==> points[i] == p)
      ensures StandsAt(now, p)
    {
      assert points[..|points|] == points;
      PointIsSet(position, points, |points|, p);
    }
    forall x | forall i :: 0 <= i < |points| ==> points[i].id != x
      ensures SamePosition(now, position, x)
    {
      PointIsKept(position, points, |points|, x);
    }
  }

  /** Some conflicting route is granted and, with a sectional interlocker, not already safe. */
  predicate Obstructed(l: Layout, t: Track, sectional: bool, route: string)
    requires route in l.routes
  {
    exists i :: 0 <= i < |l.routes[route].conflicts|
                && l.routes[route].conflicts[i] in l.routes && l.routes[route].conflicts[i] in t.train
                && (sectional ==> !ConflictSafe(l, t, l.routes[route].conflicts[i], route))
  }

  /** All signals of the route show Stop and no train stands on a segment of its path. */
  predicate Free(l: Layout, t: Track, route: string)
    requires route in l.routes
  {
    && (forall x :: x in l.routes[route].signals ==> t.AspectOf(x) == Stop)
    && (forall p :: p in t.at && p.1 in l.segments ==> p.1 !in l.routes[route].path)
  }

  /** Each of the five replies, from the table and the track alone; only a grant changes anything. */
  lemma GrantReplies(l: Layout, t: Track, sectional: bool, train: string, route: string)
    requires WellFormed(l)
    ensures var (reply, t') := Grant(l, t, sectional, train, route);
            && (reply == NotKnown <==> route !in l.routes)
            && (reply == AlreadyGranted <==> route in l.routes && route in t.train)
            && (reply == NotGrantable <==> route in l.routes && route !in t.train && Obstructed(l, t, sectional, route))
            && (reply == NotClear <==>
                  route in l.routes && route !in t.train && !Obstructed(l, t, sectional, route) && !Free(l, t, route))
            && (reply == Granted <==>
                  route in l.routes && route !in t.train && !Obstructed(l, t, sectional, route) && Free(l, t, route))
            && (reply != Granted ==> t' == t)
  {
    if route in l.routes {
      ObstructedIff(l, t, sectional, route);
      FreeIff(l, t, route);
    }
    hide HasConflicts, Clear, Obstructed, Free, WellFormed;
  }

  lemma ObstructedIff(l: Layout, t: Track, sectional: bool, route: string)
    requires route in l.routes
    ensures HasConflicts(l, t, sectional, route) <==> Obstructed(l, t, sectional, route)
  {
    hide ConflictSafe;
  }

  lemma FreeIff(l: Layout, t: Track, route: string)
    requires route in l.routes
    ensures Clear(l, t, route) <==> Free(l, t, route)
  {
    var r := l.routes[route];
    if Free(l, t, route) {
      assert forall i :: 0 <= i < |r.signals| ==> r.signals[i] in r.signals;
      assert forall i :: 0 <= i < |r.path| ==> r.path[i] in r.path;
    }
    if Clear(l, t, route) {
      forall p | p in t.at && p.1 in l.segments ensures p.1 !in r.path {
        assert t.Occupied(p.1);
      }
    }
  }

  /** A release of a granted route stops its signals as far as commands go through and takes the train off the route;
      points, trains on the track and other routes stay as they are. Any other release changes nothing. */
  lemma ReleaseMeaning(l: Layout, t: Track, route: string, failing: set<string>)
    ensures var (ok, t') := Release(l, t, route, failing);
            && (ok <==> route in l.routes && route in t.train)
            && (!ok ==> t' == t)
            && (ok ==> && t'.position == t.position && t'.at == t.at
                       && (forall r :: r in t'.train <==> r in t.train && r != route)
                       && (forall r :: r in t'.train ==> t'.train[r] == t.train[r])
                       && forall x :: t'.AspectOf(x) == if x in l.routes[route].signals && x !in failing then Stop
                                                        else t.AspectOf(x))
  {
    var (ok, t') := Release(l, t, route, failing);
    if ok {
      var signals := l.routes[route].signals;
      assert signals[..|signals|] == signals;
      forall x ensures t'.AspectOf(x) == if x in signals && x !in failing then Stop else t.AspectOf(x) {
        SignalsStoppedMeaning(t, signals, failing, |signals|, x);
      }
    }
  }

  // ----- listing the blocking conflicts -----

  /** `snprintf` into a buffer of `size` bytes keeps one byte for the terminator. */
  function Printed(text: string, size: nat): (r: string)
    requires size > 0
    ensures r <= text
  {
    if |text| < size then text else text[..size - 1]
  }

  /** The entry for one blocking conflict. The buffer is enlarged for the train exactly when it is not printed. */
  function ConflictEntry(id: string, train: string, includeTrain: bool): string {
    var size := |id| + 1 + if includeTrain then 0 else |train| + 3;
    Printed(if includeTrain then id + " (" + train + ")" else id, size)
  }

  /** So the train never appears: both kinds of entry are the bare route id. */
  lemma ConflictEntryIsId(id: string, train: string, includeTrain: bool)
    ensures ConflictEntry(id, train, includeTrain) == id
  {
  }

  function BlockingOf(l: Layout, t: Track, sectional: bool, route: string, conflicts: seq<string>, n: nat): seq<string>
    requires n <= |conflicts|
  {
    if n == 0 then []
    else BlockingOf(l, t, sectional, route, conflicts, n - 1)
         + if Blocking(l, t, sectional, conflicts[n - 1], route) then [l.routes[conflicts[n - 1]].id] else []
  }

  lemma {:induction false} BlockingOfEmpty(l: Layout, t: Track, sectional: bool, route: string, conflicts: seq<string>, n: nat)
    requires n <= |conflicts|
    ensures BlockingOf(l, t, sectional, route, conflicts, n) == []
       <==> forall i :: 0 <= i < n ==> !Blocking(l, t, sectional, conflicts[i], route)
  {
    if n > 0 {
      BlockingOfEmpty(l, t, sectional, route, conflicts, n - 1);
    }
  }

  /** Exactly the granted conflicts that obstruct the route are listed, by their ids and in the order of the table. */
  lemma {:induction false} BlockingOfMeaning(l: Layout, t: Track, sectional: bool, route: string, conflicts: seq<string>,
                                             m: nat, n: nat)
    requires m <= n <= |conflicts|
    ensures forall x :: x in BlockingOf(l, t, sectional, route, conflicts, n) <==>
              exists i :: 0 <= i < n && conflicts[i] in l.routes && conflicts[i] in t.train
                          && (sectional ==> !ConflictSafe(l, t, conflicts[i], route)) && l.routes[conflicts[i]].id == x
    ensures BlockingOf(l, t, sectional, route, conflicts, m) <= BlockingOf(l, t, sectional, route, conflicts, n)
    ensures |BlockingOf(l, t, sectional, route, conflicts, n)| <= n
  {
    hide ConflictSafe;
    if m < n {
      BlockingOfMeaning(l, t, sectional, route, conflicts, m, n - 1);
    } else if n > 0 {
      BlockingOfMeaning(l, t, sectional, route, conflicts, n - 1, n - 1);
    }
  }

  class Controller {
    const layout: Layout
    var sectional: bool                      // a sectional interlocker is selected
    var train: map<string, string>           // route->train of each route
    var aspect: map<string, Aspect>          // signal state, commanded through bidib
    var position: map<string, Position>      // point state, commanded through bidib
    var at: set<(string, string)>            // where the trains are

    function State(): Track
      reads this
    {
      Track(train, aspect, position, at)
    }

    constructor (layout: Layout)
      ensures this.layout == layout && State() == Track(map[], map[], map[], {}) && !sectional
    {
      this.layout := layout;
      sectional, train, aspect, position, at := false, map[], map[], map[], {};
    }

    method RouteHasGrantedConflicts(route: string) returns (b: bool)
      requires WellFormed(layout)
      ensures b == HasConflicts(layout, State(), sectional, route)
    {
      var conflicts := if route in layout.routes then layout.routes[route].conflicts else [];
      for i := 0 to |conflicts|
        invariant forall k :: 0 <= k < i ==> !Blocking(layout, State(), sectional, conflicts[k], route)
      {
        if conflicts[i] in layout.routes && conflicts[i] in train {
          var safe := false;
          if sectional {
            safe := IsRouteConflictSafe(layout, State(), conflicts[i], route);
          }
          if !safe {
            assert Blocking(layout, State(), sectional, conflicts[i], route);
            return true;
          }
        }
      }
      return false;
    }

    /** The ids of the granted routes in the way, in table order, whether or not trains were asked for;
        none exactly when the route has no granted conflict. */
    method GrantedRouteConflicts(route: string, includeTrain: bool) returns (entries: seq<string>)
      requires WellFormed(layout)
      ensures var conflicts := if route in layout.routes then layout.routes[route].conflicts else [];
              entries == BlockingOf(layout, State(), sectional, route, conflicts, |conflicts|)
      ensures entries == [] <==> !HasConflicts(layout, State(), sectional, route)
    {
      var conflicts := if route in layout.routes then layout.routes[route].conflicts else [];
      entries := [];
      for i := 0 to |conflicts|
        invariant entries == BlockingOf(layout, State(), sectional, route, conflicts, i)
      {
        if conflicts[i] in layout.routes && conflicts[i] in train {
          var safe := false;
          if sectional {
            safe := IsRouteConflictSafe(layout, State(), conflicts[i], route);
          }
          if !safe {
            var id := layout.routes[conflicts[i]].id;
            ConflictEntryIsId(id, train[conflicts[i]], includeTrain);
            entries := entries + [ConflictEntry(id, train[conflicts[i]], includeTrain)];
          }
        }
      }
      BlockingOfEmpty(layout, State(), sectional, route, conflicts, |conflicts|);
    }

    method RouteIsClear(route: string) returns (b: bool)
      requires route in layout.routes
      ensures b == Clear(layout, State(), route)
    {
      var r := layout.routes[route];
      for i := 0 to |r.signals|
        invariant forall k :: 0 <= k < i ==> !State().Permissive(r.signals[k])
      {
        if State().AspectOf(r.signals[i]) != Stop {
          return false;
        }
      }
      for i := 0 to |r.path|
        invariant forall k :: 0 <= k < i ==> r.path[k] in layout.segments ==> !State().Occupied(r.path[k])
      {
        if r.path[i] in layout.segments && State().Occupied(r.path[i]) {
          return false;
        }
      }
      return true;
    }

    method GrantRouteId(trainId: string, routeId: string) returns (reply: Reply)
      requires WellFormed(layout)
      modifies this`train, this`position, this`aspect
      ensures (reply, State()) == Grant(layout, old(State()), sectional, trainId, routeId)
    {
      if routeId !in layout.routes {
        return NotKnown;
      } else if routeId in train {
        return AlreadyGranted;
      }
      var conflicting := RouteHasGrantedConflicts(routeId);
      if conflicting {
        return NotGrantable;
      }
      var clear := RouteIsClear(routeId);
      if !clear {
        return NotClear;
      }
      ghost var t := State();
      train := train[routeId := trainId];
      var route := layout.routes[routeId];
      for i := 0 to |route.points|
        modifies this`position
        invariant position == PointsSet(t.position, route.points, i)
      {
        position := position[route.points[i].id := route.points[i].position];
      }
      for i := 0 to |route.signals| - 1
        modifies this`aspect
        invariant aspect == SignalsSet(layout, t.aspect, route.signals, i)
      {
        aspect := aspect[route.signals[i] := Permit(layout, route.signals[i])];
      }
      return Granted;
    }

    /** `failing` are the signals whose stop command returns an error. */
    method ReleaseRoute(routeId: string, failing: set<string>) returns (ok: bool)
      modifies this`train, this`aspect
      ensures (ok, State()) == Release(layout, old(State()), routeId, failing)
    {
      ok := false;
      if routeId in layout.routes && routeId in train {
        ghost var t := State();
        var signals := layout.routes[routeId].signals;
        for i := 0 to |signals|
          modifies this`aspect
          invariant aspect == SignalsStopped(t.aspect, signals, failing, i)
        {
          if signals[i] !in failing {
            aspect := aspect[signals[i] := Stop];
          }
        }
        train := train - {routeId};
        ok := true;
      }
    }
  }
}
