/** What a monitored drive does to the track is a run of stop steps of the interlocking, in whatever traffic. */
module DriveInTraffic {
  import opened RouteTable
  import opened RouteController
  import InterlockingRuns
  import RouteMonitor

  type Infos = seq<RouteMonitor.SignalInfo>

  predicate NewlyStopped(was: Infos, now: Infos, i: nat)
    requires i < |was| == |now|
  {
    now[i].stopped && !was[i].stopped
  }

  /** The commands of one pass that were carried out, from the i-th signal on. */
  function PassSteps(route: string, was: Infos, now: Infos, i: nat): seq<InterlockingRuns.Step>
    requires i <= |was| == |now|
    decreases |was| - i
  {
    if i == |was| then []
    else (if NewlyStopped(was, now, i) then [InterlockingRuns.MonitorStop(route, i)] else [])
         + PassSteps(route, was, now, i + 1)
  }

  predicate FollowsRoute(l: Layout, route: string, was: Infos, now: Infos) {
    && route in l.routes && |was| == |now| == |l.routes[route].signals|
    && (forall i :: 0 <= i < |was| ==> was[i].id == l.routes[route].signals[i])
    && (forall i :: 0 <= i < |was| && NewlyStopped(was, now, i) ==> i < |was| - 1)
  }

  predicate StoppedFrom(was: Infos, now: Infos, i: nat, x: string)
    requires |was| == |now|
  {
    exists k :: i <= k < |was| && NewlyStopped(was, now, k) && was[k].id == x
  }

  lemma StoppedFromStep(was: Infos, now: Infos, i: nat)
    requires i <= |was| == |now|
    ensures forall x :: StoppedFrom(was, now, i, x) <==>
              i < |was| && (StoppedFrom(was, now, i + 1, x) || (NewlyStopped(was, now, i) && x == was[i].id))
  {
  }

  lemma MayStop(l: Layout, s: InterlockingRuns.Sys, route: string, was: Infos, now: Infos, i: nat)
    requires WellFormed(l) && FollowsRoute(l, route, was, now) && i < |was| && NewlyStopped(was, now, i)
    ensures InterlockingRuns.Enabled(l, s, InterlockingRuns.MonitorStop(route, i))
    ensures InterlockingRuns.Apply(l, s, InterlockingRuns.MonitorStop(route, i))
         == s.(track := s.track.(aspect := s.track.aspect[was[i].id := Stop]))
    ensures var t' := InterlockingRuns.Apply(l, s, InterlockingRuns.MonitorStop(route, i)).track;
            forall x :: t'.AspectOf(x) == if x == was[i].id then Stop else s.track.AspectOf(x)
  {
  }

  lemma {:induction false} PassStepsRun(l: Layout, s: InterlockingRuns.Sys, route: string, was: Infos, now: Infos, i: nat)
    requires WellFormed(l) && FollowsRoute(l, route, was, now) && i <= |was|
    ensures var steps := PassSteps(route, was, now, i);
            && InterlockingRuns.IsRun(l, s, steps)
            && var s' := InterlockingRuns.After(l, s, steps);
               && s' == s.(track := s.track.(aspect := s'.track.aspect))
               && forall x :: s'.track.AspectOf(x) == if StoppedFrom(was, now, i, x) then Stop else s.track.AspectOf(x)
    decreases |was| - i
  {
    StoppedFromStep(was, now, i);
    assert |was| == |now|;
    if i < |was| {
      var step := InterlockingRuns.MonitorStop(route, i);
      var rest := PassSteps(route, was, now, i + 1);
      assert PassSteps(route, was, now, i) == (if NewlyStopped(was, now, i) then [step] else []) + rest;
      if NewlyStopped(was, now, i) {
        MayStop(l, s, route, was, now, i);
        hide *;
        var s1 := InterlockingRuns.Apply(l, s, step);
        PassStepsRun(l, s1, route, was, now, i + 1);
        InterlockingRuns.RunFirst(l, s, step, rest);
      } else {
        assert [] + rest == rest;
        hide *;
        PassStepsRun(l, s, route, was, now, i + 1);
      }
    }
  }

  /** In every state of the interlocking, the commands of one monitoring pass are enabled steps; afterwards exactly
      the signals marked by the pass show Stop where they did not have to, and nothing else on the track changed. */
  lemma PassIsRun(l: Layout, s: InterlockingRuns.Sys, route: string, d: RouteMonitor.Drive,
                  segments: set<string>, tick: RouteMonitor.Tick, reached: int)
    requires WellFormed(l) && route in l.routes && |l.routes[route].signals| >= 2
    requires RouteMonitor.DriveValid(d, reached)
    requires RouteMonitor.SameSignals(d.infos, RouteMonitor.Infos(l.routes[route].signals, l.routes[route].path))
    ensures var d' := RouteMonitor.Observe(d, l.routes[route].path, segments, tick);
            && |d'.infos| == |d.infos|
            && var steps := PassSteps(route, d.infos, d'.infos, 0);
               && InterlockingRuns.IsRun(l, s, steps)
               && var s' := InterlockingRuns.After(l, s, steps);
                  && s' == s.(track := s.track.(aspect := s'.track.aspect))
                  && forall x :: s'.track.AspectOf(x)
                       == if StoppedFrom(d.infos, d'.infos, 0, x) then Stop else s.track.AspectOf(x)
  {
    var r := l.routes[route];
    var d' := RouteMonitor.Observe(d, r.path, segments, tick);
    RouteMonitor.ObserveKeepsValid(d, r.path, segments, tick, reached);
    assert forall i :: 0 <= i < |d.infos| ==> d.infos[i].id == r.signals[i] by {
      assert forall i :: 0 <= i < |d.infos| ==>
        d.infos[i].(stopped := false) == RouteMonitor.Infos(r.signals, r.path)[i].(stopped := false);
    }
    PassStepsRun(l, s, route, d.infos, d'.infos, 0);
  }
}
