/** Following a train along its route: where it is, and which signals it has passed and must show Stop. */
module RouteMonitor {
  import opened Wrappers

  // ----- signals on the path -----

  datatype SignalInfo = SignalInfo(id: string, stopped: bool, isSource: bool, isDestination: bool, index: nat)

  /** First position at or after `from` holding `item`, or |path|. */
  function FindFrom(path: seq<string>, item: string, from: nat): (k: nat)
    requires from <= |path|
    ensures from <= k <= |path|
    ensures k < |path| ==> path[k] == item
    ensures forall j :: from <= j < k ==> path[j] != item
    decreases |path| - from
  {
    if from == |path| || path[from] == item then from else FindFrom(path, item, from + 1)
  }

  /** The single forward scan over the path; a signal it does not find gets index 0. */
  function Locate(signals: seq<string>, path: seq<string>, from: nat): (idx: seq<nat>)
    requires from <= |path|
    ensures |idx| == |signals|
  {
    if signals == [] then []
    else
      var k := FindFrom(path, signals[0], from);
      [if k < |path| then k else 0] + Locate(signals[1..], path, k)
  }

  /** `idx` places the signals on the path in order, from `from` on. */
  predicate Places(signals: seq<string>, path: seq<string>, from: nat, idx: seq<nat>) {
    |idx| == |signals| &&
    (forall i :: 0 <= i < |idx| ==> from <= idx[i] < |path| && path[idx[i]] == signals[i]) &&
    (forall i, j :: 0 <= i < j < |idx| ==> idx[i] <= idx[j])
  }

  /** The scan succeeds exactly when the signals occur along the path in their order, and then places each of
      them as early as any placement could. */
  lemma {:induction false} LocateIsLeast(signals: seq<string>, path: seq<string>, from: nat, idx: seq<nat>)
    requires from <= |path| && Places(signals, path, from, idx)
    ensures Places(signals, path, from, Locate(signals, path, from))
    ensures forall i :: 0 <= i < |idx| ==> Locate(signals, path, from)[i] <= idx[i]
  {
    if signals != [] {
      var k := FindFrom(path, signals[0], from);
      assert k <= idx[0];
      assert Places(signals[1..], path, k, idx[1..]);
      LocateIsLeast(signals[1..], path, k, idx[1..]);
      var rest := Locate(signals[1..], path, k);
      var all := Locate(signals, path, from);
      assert all == [k] + rest;
      forall i | 0 <= i < |idx| ensures all[i] <= idx[i] {
        if i > 0 {
          assert all[i] == rest[i - 1] <= idx[1..][i - 1];
        }
      }
    }
  }

  /** The signals between source and destination. */
  function Between(signals: seq<string>): seq<string> {
    if |signals| <= 2 then [] else signals[1..|signals| - 1]
  }

  /** The i-th signal is found exactly when the signals up to it can be placed in order, and then as early as any such
      placement has it; otherwise it gets index 0. */
  lemma {:induction false} LocateExactly(signals: seq<string>, path: seq<string>, from: nat, i: nat)
    requires from <= |path| && i < |signals|
    ensures var front, idx := signals[..i + 1], Locate(signals, path, from);
            if Places(front, path, from, idx[..i + 1])
            then forall p :: Places(front, path, from, p) ==> idx[i] <= p[i]
            else idx[i] == 0 && forall p :: !Places(front, path, from, p)
    decreases i
  {
    LocatePrefix(signals, path, from, i + 1);
    var front := signals[..i + 1];
    var idx := Locate(front, path, from);
    assert Locate(signals, path, from)[..i + 1] == idx;
    forall p | Places(front, path, from, p) ensures Places(front, path, from, idx) && idx[i] <= p[i] {
      LocateIsLeast(front, path, from, p);
    }
    LocatedOrZero(front, path, from);
  }

  lemma {:induction false} LocatePrefix(signals: seq<string>, path: seq<string>, from: nat, n: nat)
    requires from <= |path| && n <= |signals|
    ensures Locate(signals, path, from)[..n] == Locate(signals[..n], path, from)
    decreases n
  {
    if n > 0 {
      var k := FindFrom(path, signals[0], from);
      assert signals[..n][0] == signals[0] && signals[..n][1..] == signals[1..][..n - 1];
      LocatePrefix(signals[1..], path, k, n - 1);
    }
  }

  lemma {:induction false} LocatedOrZero(signals: seq<string>, path: seq<string>, from: nat)
    requires from <= |path| && signals != []
    ensures var idx := Locate(signals, path, from);
            Places(signals, path, from, idx) || idx[|idx| - 1] == 0
    decreases |signals|
  {
    var k := FindFrom(path, signals[0], from);
    var rest := Locate(signals[1..], path, k);
    assert Locate(signals, path, from) == [if k < |path| then k else 0] + rest;
    hide Places, Locate, FindFrom;
    if |signals| > 1 {
      LocatedOrZero(signals[1..], path, k);
      if k == |path| {
        AtEndZero(signals[1..], path);
      }
    } else {
      NonePlaces(path, k);
      assert rest == [] && signals[1..] == [];
    }
    if k < |path| && Places(signals[1..], path, k, rest) {
      PlacesFirst(signals, path, from, k, rest);
    }
  }

  lemma NonePlaces(path: seq<string>, from: nat)
    ensures Places([], path, from, [])
  {
  }

  lemma PlacesFirst(signals: seq<string>, path: seq<string>, from: nat, k: nat, rest: seq<nat>)
    requires signals != [] && from <= k < |path| && path[k] == signals[0] && Places(signals[1..], path, k, rest)
    ensures Places(signals, path, from, [k] + rest)
  {
    var idx := [k] + rest;
    assert forall i :: 1 <= i < |signals| ==> idx[i] == rest[i - 1] && signals[i] == signals[1..][i - 1];
  }

  lemma {:induction false} AtEndZero(signals: seq<string>, path: seq<string>)
    ensures forall i :: 0 <= i < |signals| ==> Locate(signals, path, |path|)[i] == 0
    decreases |signals|
  {
    if signals != [] {
      AtEndZero(signals[1..], path);
    }
  }

  /** What the infos say: each signal by its place in the route, source and destination with index 0, the others with
      the index found for them. */
  lemma InfosMeaning(signals: seq<string>, path: seq<string>, i: nat)
    requires i < |signals|
    ensures var info, n := Infos(signals, path)[i], |signals|;
            && info.id == signals[i] && !info.stopped && (info.isSource <==> i == 0) && (info.isDestination <==> i == n - 1)
            && (i == 0 || i == n - 1 ==> info.index == 0)
            && (0 < i < n - 1 ==> info.index == Locate(signals[1..n - 1], path, 0)[i - 1])
  {
  }

  /** Source and destination do not lie on the path and keep index 0; the others are located. */
  function Infos(signals: seq<string>, path: seq<string>): (infos: seq<SignalInfo>)
    ensures |infos| == |signals|
  {
    var n := |signals|;
    var idx := Locate(Between(signals), path, 0);
    seq(n, i requires 0 <= i < n =>
      SignalInfo(signals[i], false, i == 0, i + 1 == n, if 0 < i < n - 1 then idx[i - 1] else 0))
  }

  predicate OnPathInOrder(signals: seq<string>, path: seq<string>) {
    Places(Between(signals), path, 0, Locate(Between(signals), path, 0))
  }

  /** Indices do not decrease along the route, leaving the destination aside. */
  predicate Ordered(infos: seq<SignalInfo>) {
    forall i, j :: 0 <= i < j < |infos| - 1 ==> infos[i].index <= infos[j].index
  }

  lemma InfosAreOrdered(signals: seq<string>, path: seq<string>)
    requires OnPathInOrder(signals, path)
    ensures Ordered(Infos(signals, path))
  {
  }

  method GetSignalInfos(signals: seq<string>, path: seq<string>) returns (infos: array<SignalInfo>)
    ensures fresh(infos) && infos[..] == Infos(signals, path)
  {
    var n := |signals|;
    infos := new SignalInfo[n](i requires 0 <= i < n => SignalInfo(signals[i], false, i == 0, i + 1 == n, 0));
    LocateSignals(infos, signals, path);
  }

  /** The signals that are neither source nor destination get their path indices, in one scan over the path. */
  method LocateSignals(infos: array<SignalInfo>, signals: seq<string>, path: seq<string>)
    requires infos.Length == |signals|
    requires forall k :: 0 <= k < |signals| ==> infos[k] == Infos(signals, path)[k].(index := 0)
    modifies infos
    ensures infos[..] == Infos(signals, path)
  {
    ghost var goal := Infos(signals, path);
    var pathIndex: nat := 0;
    LocateStarts(signals, path);
    hide *;
    for i := 0 to infos.Length
      invariant LocatedFrom(signals, path, i, pathIndex)
      invariant forall k :: 0 <= k < i ==> infos[k] == goal[k]
      invariant forall k :: i <= k < |goal| ==> infos[k] == goal[k].(index := 0)
    {
      pathIndex := LocateOne(infos, i, signals, path, pathIndex);
    }
    assert |infos[..]| == |goal|;
  }

  /** Source and destination are skipped; any other signal is searched for from where the last one was found. */
  method LocateOne(infos: array<SignalInfo>, i: nat, signals: seq<string>, path: seq<string>, from: nat)
    returns (pathIndex: nat)
    requires i < infos.Length == |signals| && LocatedFrom(signals, path, i, from)
    requires infos[i] == Infos(signals, path)[i].(index := 0)
    modifies infos
    ensures infos[i] == Infos(signals, path)[i] && LocatedFrom(signals, path, i + 1, pathIndex)
    ensures forall k :: 0 <= k < infos.Length && k != i ==> infos[k] == old(infos[k])
  {
    LocateNext(signals, path, i, from);
    hide *;
    pathIndex := from;
    if !infos[i].isSource && !infos[i].isDestination {
      pathIndex := Scan(path, signals[i], pathIndex);
      if pathIndex < |path| {
        infos[i] := infos[i].(index := pathIndex);
      }
    }
  }

  /** Signals between source and destination that come before the i-th signal. */
  function Seen(i: nat, n: nat): nat {
    if i == 0 || n < 2 then 0 else if i < n then i - 1 else n - 2
  }

  /** Scanning on from `from` locates the i-th signal and those after it. */
  predicate LocatedFrom(signals: seq<string>, path: seq<string>, i: nat, from: nat) {
    var mid, m := Between(signals), Seen(i, |signals|);
    m <= |mid| && from <= |path| && Locate(mid[m..], path, from) == Locate(mid, path, 0)[m..]
  }

  lemma LocateStarts(signals: seq<string>, path: seq<string>)
    ensures LocatedFrom(signals, path, 0, 0)
  {
    assert Between(signals)[0..] == Between(signals);
  }

  lemma LocateNext(signals: seq<string>, path: seq<string>, i: nat, from: nat)
    requires i < |signals| && LocatedFrom(signals, path, i, from)
    ensures from <= |path|
    ensures var info := Infos(signals, path)[i];
            && info.id == signals[i] && info.isSource == (i == 0) && info.isDestination == (i + 1 == |signals|)
            && if info.isSource || info.isDestination then info.index == 0 && LocatedFrom(signals, path, i + 1, from)
               else var k := FindFrom(path, signals[i], from);
                    info.index == (if k < |path| then k else 0) && LocatedFrom(signals, path, i + 1, k)
  {
    var mid, m := Between(signals), Seen(i, |signals|);
    if 0 < i < |signals| - 1 {
      LocateTail(mid, path, m, from);
    }
  }

  lemma LocateTail(mid: seq<string>, path: seq<string>, m: nat, from: nat)
    requires m < |mid| && from <= |path| && Locate(mid[m..], path, from) == Locate(mid, path, 0)[m..]
    ensures var k := FindFrom(path, mid[m], from);
            var idx := Locate(mid, path, 0);
            idx[m] == (if k < |path| then k else 0) && Locate(mid[m + 1..], path, k) == idx[m + 1..]
  {
    var idx := Locate(mid, path, 0);
    assert mid[m..][0] == mid[m] && mid[m..][1..] == mid[m + 1..];
    assert idx[m..][0] == idx[m] && idx[m..][1..] == idx[m + 1..];
  }

  /** The inner loop, which goes on where the last one ended. */
  method Scan(path: seq<string>, item: string, from: nat) returns (n: nat)
    requires from <= |path|
    ensures n == FindFrom(path, item, from)
  {
    n := from;
    while n < |path| && path[n] != item
      invariant from <= n <= |path|
      invariant FindFrom(path, item, from) == FindFrom(path, item, n)
    {
      n := n + 1;
    }
  }

  // ----- segments that occur more than once -----

  predicate Repeated(path: seq<string>, segments: set<string>, i: int)
    requires 0 <= i < |path|
  {
    path[i] in segments && exists j :: 0 <= j < |path| && j != i && path[j] == path[i]
  }

  /** j is the next occurrence of the item at i. */
  predicate NextOccurrence(path: seq<string>, i: int, j: int) {
    0 <= i < j < |path| && path[i] == path[j] && forall m :: i < m < j ==> path[m] != path[i]
  }

  lemma {:induction false} ClosestPrevious(path: seq<string>, a: int, k: int) returns (c: int)
    requires 0 <= a < k < |path| && path[a] == path[k]
    ensures a <= c && NextOccurrence(path, c, k)
    decreases k - a
  {
    if m :| a < m < k && path[m] == path[a] {
      c := ClosestPrevious(path, m, k);
    } else {
      c := a;
    }
  }

  /** Each segment only looks for its next occurrence, yet exactly the repeated ones end up flagged. */
  method RepeatedSegmentFlags(path: seq<string>, segments: set<string>) returns (flags: array<bool>)
    ensures fresh(flags) && flags.Length == |path|
    ensures forall k :: 0 <= k < |path| ==> flags[k] == Repeated(path, segments, k)
    ensures forall k :: 0 <= k < |path| ==>
              (flags[k] <==> path[k] in segments && exists j :: 0 <= j < |path| && j != k && path[j] == path[k])
  {
    flags := new bool[|path|](_ => false);
    for i := 0 to |path|
      invariant forall k :: 0 <= k < |path| && flags[k] ==> Repeated(path, segments, k)
      invariant forall a, k :: 0 <= a < i && path[a] in segments && NextOccurrence(path, a, k) ==> flags[a] && flags[k]
    {
      if path[i] in segments && i + 1 < |path| {
        var n := i + 1;
        while n < |path| && path[n] != path[i]
          invariant i < n <= |path|
          invariant forall m :: i < m < n ==> path[m] != path[i]
        {
          n := n + 1;
        }
        if n < |path| {
          flags[i], flags[n] := true, true;
        }
      }
    }
    forall k | 0 <= k < |path| && Repeated(path, segments, k) ensures flags[k] {
      var j :| 0 <= j < |path| && j != k && path[j] == path[k];
      if j < k {
        var c := ClosestPrevious(path, j, k);
      } else {
        NextExists(path, k, j);
      }
    }
  }

  lemma NextExists(path: seq<string>, k: int, j: int)
    requires 0 <= k < j < |path| && path[j] == path[k]
    ensures exists n :: NextOccurrence(path, k, n)
  {
    var n := FindFrom(path, path[k], k + 1);
    assert NextOccurrence(path, k, n);
  }

  // ----- where the train is -----

  datatype PosQuery = NotOnTracks | NotOnRoute | OnRoute(index: nat)

  /** The greatest index below n, but at least 1, whose segment is occupied and occurs only once. */
  function Furthest(path: seq<string>, segments: set<string>, occupied: set<string>, n: nat): (r: PosQuery)
    requires n <= |path|
    ensures r.OnRoute? ==> 1 <= r.index < n && path[r.index] in occupied && !Repeated(path, segments, r.index)
    ensures forall k :: 1 <= k < n && path[k] in occupied && !Repeated(path, segments, k) ==>
              r.OnRoute? && k <= r.index
    ensures !r.NotOnTracks?
  {
    if n <= 1 then NotOnRoute
    else if path[n - 1] in occupied && !Repeated(path, segments, n - 1) then OnRoute(n - 1)
    else Furthest(path, segments, occupied, n - 1)
  }

  function Elements(s: seq<string>): set<string> {
    set x | x in s
  }

  /** First index from `from` on that holds the item and is not flagged, or |path|. */
  function FindUnflagged(path: seq<string>, segments: set<string>, item: string, from: nat): (n: nat)
    requires from <= |path|
    ensures from <= n <= |path|
    ensures n < |path| ==> path[n] == item && !Repeated(path, segments, n)
    ensures forall k :: from <= k < n ==> path[k] != item || Repeated(path, segments, k)
    decreases |path| - from
  {
    if from == |path| || (path[from] == item && !Repeated(path, segments, from)) then from
    else FindUnflagged(path, segments, item, from + 1)
  }

  /** Each reported segment is searched only behind the position already found. */
  function Search(path: seq<string>, segments: set<string>, reported: seq<string>): (q: PosQuery)
    ensures !q.NotOnTracks? && (q.OnRoute? ==> 1 <= q.index < |path|)
    decreases |reported|
  {
    if reported == [] then NotOnRoute
    else
      var front := reported[..|reported| - 1];
      var before := Search(path, segments, front);
      var from := if before.OnRoute? then before.index + 1 else 1;
      var n := if from < |path| then FindUnflagged(path, segments, reported[|reported| - 1], from) else |path|;
      if n < |path| then OnRoute(n) else before
  }

  function Position(path: seq<string>, segments: set<string>, reported: seq<string>): PosQuery {
    if reported == [] then NotOnTracks else Search(path, segments, reported)
  }

  /** A segment, or at most once on the path. */
  predicate Trackable(path: seq<string>, segments: set<string>, item: string) {
    item in segments || forall j, k :: 0 <= j < k < |path| && path[j] == item ==> path[k] != item
  }

  lemma {:induction false} SearchIsFurthest(path: seq<string>, segments: set<string>, reported: seq<string>)
    requires forall i :: 0 <= i < |reported| ==> Trackable(path, segments, reported[i])
    ensures Search(path, segments, reported) == Furthest(path, segments, Elements(reported), |path|)
    decreases |reported|
  {
    hide Repeated;
    if reported != [] {
      var front, item := reported[..|reported| - 1], reported[|reported| - 1];
      SearchIsFurthest(path, segments, front);
      assert Elements(reported) == Elements(front) + {item};
      UnflaggedOnce(path, segments, item);
    }
  }

  lemma UnflaggedOnce(path: seq<string>, segments: set<string>, item: string)
    requires Trackable(path, segments, item)
    ensures forall j, k :: (0 <= j < |path| && 0 <= k < |path| && path[j] == item == path[k]
                            && !Repeated(path, segments, j) && !Repeated(path, segments, k)) ==> j == k
  {
  }

  /** For reported segments the search finds the furthest one, in whatever order they are reported. */
  lemma PositionIsFurthest(path: seq<string>, segments: set<string>, reported: seq<string>)
    requires forall i :: 0 <= i < |reported| ==> Trackable(path, segments, reported[i])
    ensures Position(path, segments, reported)
         == if reported == [] then NotOnTracks else Furthest(path, segments, Elements(reported), |path|)
  {
    SearchIsFurthest(path, segments, reported);
  }

  /** The same without any search: a train is on the route exactly when some index behind the first holds a reported
      item that is not a repeated segment, and its position is the greatest such index. */
  lemma PositionMeaning(path: seq<string>, segments: set<string>, reported: seq<string>, k: nat)
    requires forall i :: 0 <= i < |reported| ==> Trackable(path, segments, reported[i])
    requires k < |path|
    ensures Position(path, segments, reported) == NotOnTracks <==> reported == []
    ensures Position(path, segments, reported) == OnRoute(k) <==>
            (Marks(path, segments, reported, k) && forall n :: k < n < |path| ==> !Marks(path, segments, reported, n))
    ensures Position(path, segments, reported) == NotOnRoute ==> !Marks(path, segments, reported, k)
  {
    PositionIsFurthest(path, segments, reported);
    assert forall n :: 0 <= n < |path| ==>
      (Marks(path, segments, reported, n) <==> n >= 1 && path[n] in Elements(reported) && !Repeated(path, segments, n));
    hide Marks, Repeated, Search;
  }

  predicate Marks(path: seq<string>, segments: set<string>, reported: seq<string>, k: nat)
    requires k < |path|
  {
    && k >= 1 && path[k] in reported
    && !(path[k] in segments && exists j :: 0 <= j < |path| && j != k && path[j] == path[k])
  }

  /** The order in which the occupied segments are reported does not matter. */
  lemma PositionIgnoresOrder(path: seq<string>, segments: set<string>, a: seq<string>, b: seq<string>)
    requires forall i :: 0 <= i < |a| ==> Trackable(path, segments, a[i])
    requires forall x :: x in a <==> x in b
    ensures Position(path, segments, a) == Position(path, segments, b)
  {
    assert forall i :: 0 <= i < |b| ==> b[i] in a;
    assert Elements(a) == Elements(b);
    if a != [] { assert a[0] in b; }
    if b != [] { assert b[0] in a; }
    PositionIsFurthest(path, segments, a);
    PositionIsFurthest(path, segments, b);
  }

  method TrainPosition(path: seq<string>, segments: set<string>, flags: array<bool>, reported: seq<string>)
    returns (q: PosQuery)
    requires flags.Length == |path| && forall k :: 0 <= k < |path| ==> flags[k] == Repeated(path, segments, k)
    ensures q == Position(path, segments, reported)
  {
    if |reported| == 0 {
      return NotOnTracks;
    }
    var pos: nat, ok := 0, false;
    assert Searched(path, segments, reported, 0, pos, ok);
    hide Repeated, Searched, FindUnflagged;
    for i := 0 to |reported|
      invariant Searched(path, segments, reported, i, pos, ok)
    {
      SearchNext(path, segments, reported, i, pos, ok);
      if pos + 1 < |path| {
        var n := ScanUnflagged(path, segments, flags, reported[i], pos + 1);
        if n < |path| {
          pos, ok := n, true;
        }
      }
    }
    q := if ok then OnRoute(pos) else NotOnRoute;
    SearchEnds(path, segments, reported, pos, ok);
  }

  /** The inner loop: the first unflagged index that holds the item. */
  method ScanUnflagged(path: seq<string>, segments: set<string>, flags: array<bool>, item: string, from: nat)
    returns (n: nat)
    requires flags.Length == |path| && forall k :: 0 <= k < |path| ==> flags[k] == Repeated(path, segments, k)
    requires from <= |path|
    ensures n == FindUnflagged(path, segments, item, from)
  {
    hide Repeated;
    n := from;
    while n < |path| && (flags[n] || path[n] != item)
      invariant from <= n <= |path|
      invariant FindUnflagged(path, segments, item, from) == FindUnflagged(path, segments, item, n)
    {
      n := n + 1;
    }
  }

  /** What the first i reported segments have been searched to. */
  predicate Searched(path: seq<string>, segments: set<string>, reported: seq<string>, i: nat, pos: nat, ok: bool) {
    && i <= |reported| && Search(path, segments, reported[..i]) == (if ok then OnRoute(pos) else NotOnRoute)
    && (!ok ==> pos == 0)
  }

  lemma SearchNext(path: seq<string>, segments: set<string>, reported: seq<string>, i: nat, pos: nat, ok: bool)
    requires i < |reported| && Searched(path, segments, reported, i, pos, ok)
    ensures var n := if pos + 1 < |path| then FindUnflagged(path, segments, reported[i], pos + 1) else |path|;
            Searched(path, segments, reported, i + 1, if n < |path| then n else pos, ok || n < |path|)
  {
    SearchLast(path, segments, reported[..i], reported[i]);
    hide FindUnflagged, Repeated, Search;
    assert reported[..i + 1] == reported[..i] + [reported[i]];
  }

  lemma SearchEnds(path: seq<string>, segments: set<string>, reported: seq<string>, pos: nat, ok: bool)
    requires Searched(path, segments, reported, |reported|, pos, ok) && reported != []
    ensures Position(path, segments, reported) == if ok then OnRoute(pos) else NotOnRoute
  {
    assert reported[..|reported|] == reported;
    hide Search;
  }

  lemma SearchLast(path: seq<string>, segments: set<string>, front: seq<string>, item: string)
    ensures var before := Search(path, segments, front);
            var from := if before.OnRoute? then before.index + 1 else 1;
            var n := if from < |path| then FindUnflagged(path, segments, item, from) else |path|;
            Search(path, segments, front + [item]) == if n < |path| then OnRoute(n) else before
  {
    hide FindUnflagged, Repeated;
    var all := front + [item];
    assert all[..|all| - 1] == front && all[|all| - 1] == item;
  }

  // ----- stopping the signals behind the train -----

  /** The signal has been passed and its stop command goes through now. */
  predicate StopsNow(info: SignalInfo, pos: nat, failing: set<string>) {
    !info.stopped && !info.isDestination && info.index <= pos && info.id !in failing
  }

  function Updated(infos: seq<SignalInfo>, pos: nat, failing: set<string>): (r: seq<SignalInfo>)
    ensures |r| == |infos|
  {
    seq(|infos|, i requires 0 <= i < |infos| =>
      if StopsNow(infos[i], pos, failing) then infos[i].(stopped := true) else infos[i])
  }

  function StoppedUpTo(infos: seq<SignalInfo>, n: nat): (c: nat)
    requires n <= |infos|
    ensures c <= n
  {
    if n == 0 then 0 else StoppedUpTo(infos, n - 1) + if infos[n - 1].stopped then 1 else 0
  }

  function StoppedCount(infos: seq<SignalInfo>): nat {
    StoppedUpTo(infos, |infos|)
  }

  lemma {:induction false} FullCount(infos: seq<SignalInfo>, n: nat)
    requires n <= |infos| && StoppedUpTo(infos, n) == n
    ensures forall i :: 0 <= i < n ==> infos[i].stopped
  {
    if n > 0 {
      FullCount(infos, n - 1);
    }
  }

  lemma {:induction false} NoneStopped(infos: seq<SignalInfo>, n: nat)
    requires n <= |infos| && forall i :: 0 <= i < n ==> !infos[i].stopped
    ensures StoppedUpTo(infos, n) == 0
  {
    if n > 0 {
      NoneStopped(infos, n - 1);
    }
  }

  lemma {:induction false} UpdateOnlyAdds(infos: seq<SignalInfo>, pos: nat, failing: set<string>, n: nat)
    requires n <= |infos|
    ensures StoppedUpTo(infos, n) <= StoppedUpTo(Updated(infos, pos, failing), n)
  {
    if n > 0 {
      UpdateOnlyAdds(infos, pos, failing, n - 1);
    }
  }

  /** `failing` are the signals whose stop command returns an error; they are not marked and not counted. */
  method UpdateSignals(infos: array<SignalInfo>, pos: nat, failing: set<string>) returns (stops: nat)
    modifies infos
    ensures infos[..] == Updated(old(infos[..]), pos, failing)
    ensures StoppedCount(infos[..]) == StoppedCount(old(infos[..])) + stops
  {
    ghost var was := infos[..];
    ghost var now := Updated(was, pos, failing);
    stops := 0;
    for i := 0 to infos.Length
      invariant forall k :: 0 <= k < i ==> infos[k] == now[k]
      invariant forall k :: i <= k < infos.Length ==> infos[k] == was[k]
      invariant StoppedUpTo(now, i) == StoppedUpTo(was, i) + stops
    {
      if !infos[i].stopped && !infos[i].isDestination {
        if infos[i].index <= pos {
          if infos[i].id !in failing {
            infos[i] := infos[i].(stopped := true);
            stops := stops + 1;
          }
        }
      }
    }
    assert infos[..] == now;
  }

  // ----- the monitoring loop -----

  /** One pass of the loop: is the server running and the route still the train's, which segments the train
      reports, and which stop commands would fail. */
  datatype Tick = Tick(running: bool, granted: bool, reported: seq<string>, failing: set<string>)

  datatype Drive = Drive(infos: seq<SignalInfo>, count: nat, previous: nat, first: bool)

  predicate Continues(d: Drive, tick: Tick) {
    tick.running && tick.granted && d.count < |d.infos| - 1
  }

  function Observe(d: Drive, path: seq<string>, segments: set<string>, tick: Tick): Drive {
    match Position(path, segments, tick.reported)
    case OnRoute(pos) =>
      if d.previous != pos || d.first then
        var infos := Updated(d.infos, pos, tick.failing);
        UpdateOnlyAdds(d.infos, pos, tick.failing, |infos|);
        Drive(infos, StoppedCount(infos) - StoppedCount(d.infos) + d.count, pos, false)
      else d
    case _ => d
  }

  /** The state when the loop ends, and how many passes it made. It ends when it may not continue, or with the
      last observation given. */
  function Monitor(d: Drive, path: seq<string>, segments: set<string>, ticks: seq<Tick>): (r: (Drive, nat))
    ensures r.1 <= |ticks|
    ensures r.1 < |ticks| ==> !Continues(r.0, ticks[r.1])
    decreases |ticks|
  {
    if ticks == [] || !Continues(d, ticks[0]) then (d, 0)
    else
      var (end, passes) := Monitor(Observe(d, path, segments, ticks[0]), path, segments, ticks[1..]);
      (end, passes + 1)
  }

  function Start(signals: seq<string>, path: seq<string>): Drive {
    Drive(Infos(signals, path), 0, 0, true)
  }

  /** One pass of the loop body. */
  method Pass(d: Drive, infos: array<SignalInfo>, path: seq<string>, segments: set<string>, flags: array<bool>, tick: Tick)
    returns (d': Drive)
    requires infos[..] == d.infos
    requires flags.Length == |path| && forall k :: 0 <= k < |path| ==> flags[k] == Repeated(path, segments, k)
    modifies infos
    ensures d' == Observe(d, path, segments, tick) && infos[..] == d'.infos
  {
    d' := d;
    var query := TrainPosition(path, segments, flags, tick.reported);
    if query.OnRoute? {
      if d.previous != query.index || d.first {
        var stops := UpdateSignals(infos, query.index, tick.failing);
        d' := Drive(infos[..], d.count + stops, d.previous, false);
      }
      d' := d'.(previous := query.index);
    }
  }

  method MonitorTrain(signals: seq<string>, path: seq<string>, segments: set<string>, ticks: seq<Tick>)
    returns (ok: bool, end: Drive, passes: nat)
    ensures ok <==> |signals| >= 2
    ensures ok ==> (end, passes) == Monitor(Start(signals, path), path, segments, ticks)
    ensures ok ==> && passes <= |ticks|
                   && (forall k :: 0 <= k < passes ==> !EndsAt(signals, path, segments, ticks, k))
                   && (passes < |ticks| ==> EndsAt(signals, path, segments, ticks, passes))
    ensures ok ==> && |end.infos| == |signals|
                   && forall i :: 0 <= i < |signals| ==>
                        (end.infos[i].stopped <==>
                           i < |signals| - 1
                           && StoppedDuring(None, path, segments, ticks[..passes], signals[i], Infos(signals, path)[i].index))
  {
    var infos := GetSignalInfos(signals, path);
    var flags := RepeatedSegmentFlags(path, segments);
    end, passes := Drive(infos[..], 0, 0, true), 0;
    if infos.Length < 2 {
      return false, end, 0;
    }
    ok := true;
    EndsExactly(signals, path, segments, ticks);
    MonitoredExactly(signals, path, segments, ticks);
    ghost var goal := Monitor(Start(signals, path), path, segments, ticks);
    MonitorStarts(end, path, segments, ticks);
    hide Observe, Infos, Monitor, Repeated, MonitorsTo, EndsAt, StoppedDuring;
    while passes < |ticks| && ticks[passes].running && ticks[passes].granted && end.count < |signals| - 1
      invariant passes <= |ticks| && fresh(infos) && infos[..] == end.infos && |end.infos| == |signals|
      invariant flags.Length == |path| && forall k :: 0 <= k < |path| ==> flags[k] == Repeated(path, segments, k)
      invariant MonitorsTo(goal, end, path, segments, ticks, passes)
      decreases |ticks| - passes
    {
      MonitorNext(goal, end, path, segments, ticks, passes);
      end := Pass(end, infos, path, segments, flags, ticks[passes]);
      passes := passes + 1;
    }
    MonitorNext(goal, end, path, segments, ticks, passes);
  }

  /** After k passes d is on the way to the goal. */
  predicate MonitorsTo(goal: (Drive, nat), d: Drive, path: seq<string>, segments: set<string>, ticks: seq<Tick>, k: nat) {
    k <= |ticks| && var (end, later) := Monitor(d, path, segments, ticks[k..]); goal == (end, k + later)
  }

  lemma MonitorStarts(d: Drive, path: seq<string>, segments: set<string>, ticks: seq<Tick>)
    ensures MonitorsTo(Monitor(d, path, segments, ticks), d, path, segments, ticks, 0)
  {
    assert ticks[0..] == ticks;
    hide Monitor;
  }

  lemma MonitorNext(goal: (Drive, nat), d: Drive, path: seq<string>, segments: set<string>, ticks: seq<Tick>, k: nat)
    requires MonitorsTo(goal, d, path, segments, ticks, k)
    ensures if k < |ticks| && Continues(d, ticks[k])
            then MonitorsTo(goal, Observe(d, path, segments, ticks[k]), path, segments, ticks, k + 1)
            else goal == (d, k)
  {
    hide Observe;
    assert ticks[k..] != [] ==> ticks[k..][0] == ticks[k] && ticks[k..][1..] == ticks[k + 1..];
  }

  // ----- what monitoring achieves -----

  /** The furthest position reported by the ticks or known before, -1 if there is none. */
  function Reached(before: int, path: seq<string>, segments: set<string>, ticks: seq<Tick>): (r: int)
    ensures r >= before
    decreases |ticks|
  {
    if ticks == [] then before
    else
      var now := match Position(path, segments, ticks[0].reported)
                 case OnRoute(pos) => if pos > before then pos else before
                 case _ => before;
      Reached(now, path, segments, ticks[1..])
  }

  predicate SameSignals(a: seq<SignalInfo>, b: seq<SignalInfo>) {
    |a| == |b| && forall i :: 0 <= i < |a| ==> a[i].(stopped := false) == b[i].(stopped := false)
  }

  /** Counting is right, only passed signals are marked, and the destination is never among them. */
  predicate DriveValid(d: Drive, reached: int) {
    && d.count == StoppedCount(d.infos)
    && (d.first ==> reached == -1)
    && (!d.first ==> d.previous <= reached)
    && forall i :: 0 <= i < |d.infos| ==>
         d.infos[i].isDestination == (i + 1 == |d.infos|)
         && (d.infos[i].stopped ==> !d.infos[i].isDestination && d.infos[i].index <= reached)
  }

  /** Exactly the passed signals are marked. */
  predicate StoppedBehind(infos: seq<SignalInfo>, reached: int) {
    forall i :: 0 <= i < |infos| ==> (infos[i].stopped <==> i < |infos| - 1 && infos[i].index <= reached)
  }

  predicate NoneFails(ticks: seq<Tick>) {
    forall i :: 0 <= i < |ticks| ==> ticks[i].failing == {}
  }

  lemma ObserveKeepsValid(d: Drive, path: seq<string>, segments: set<string>, tick: Tick, reached: int)
    requires DriveValid(d, reached)
    ensures var d' := Observe(d, path, segments, tick);
            var reached' := Reached(reached, path, segments, [tick]);
            && DriveValid(d', reached') && SameSignals(d'.infos, d.infos)
            && (tick.failing == {} && StoppedBehind(d.infos, reached) ==> StoppedBehind(d'.infos, reached'))
  {
    assert [tick][1..] == [];
  }

  lemma {:induction false} MonitorKeepsValid(d: Drive, path: seq<string>, segments: set<string>, ticks: seq<Tick>, reached: int)
    requires DriveValid(d, reached)
    ensures var (end, passes) := Monitor(d, path, segments, ticks);
            var reached' := Reached(reached, path, segments, ticks[..passes]);
            && DriveValid(end, reached') && SameSignals(end.infos, d.infos)
            && (NoneFails(ticks[..passes]) && StoppedBehind(d.infos, reached) ==> StoppedBehind(end.infos, reached'))
    decreases |ticks|
  {
    hide Observe, DriveValid, StoppedBehind, Position;
    var (end, passes) := Monitor(d, path, segments, ticks);
    if passes == 0 {
      assert ticks[..0] == [];
    } else {
      var d' := Observe(d, path, segments, ticks[0]);
      var reached' := Reached(reached, path, segments, [ticks[0]]);
      assert [ticks[0]][1..] == [];
      ObserveKeepsValid(d, path, segments, ticks[0], reached);
      MonitorKeepsValid(d', path, segments, ticks[1..], reached');
      assert ticks[..passes][0] == ticks[0] && ticks[..passes][1..] == ticks[1..][..passes - 1];
      assert NoneFails(ticks[..passes]) ==> ticks[..passes][0].failing == {} && NoneFails(ticks[1..][..passes - 1]);
    }
  }

  /** However the train moves and whichever commands fail: the counter is the number of stopped signals, only
      passed signals are stopped, and leaving the loop by the count means all but the destination are stopped. */
  lemma MonitoringIsSound(signals: seq<string>, path: seq<string>, segments: set<string>, ticks: seq<Tick>)
    requires |signals| >= 2
    ensures var (end, passes) := Monitor(Start(signals, path), path, segments, ticks);
            var reached := Reached(-1, path, segments, ticks[..passes]);
            && end.count == StoppedCount(end.infos)
            && SameSignals(end.infos, Infos(signals, path))
            && !end.infos[|signals| - 1].stopped
            && (forall i :: 0 <= i < |signals| && end.infos[i].stopped ==> end.infos[i].index <= reached)
            && (end.count == |signals| - 1 ==> forall i :: 0 <= i < |signals| - 1 ==> end.infos[i].stopped)
  {
    NoneStopped(Infos(signals, path), |signals|);
    MonitorKeepsValid(Start(signals, path), path, segments, ticks, -1);
    var (end, _) := Monitor(Start(signals, path), path, segments, ticks);
    if end.count == |signals| - 1 {
      FullCount(end.infos, |signals| - 1);
    }
  }

  /** If the route's signals lie along its path and every stop command goes through, the stopped signals are
      exactly the passed ones, and they are a prefix of the route's signals. */
  lemma SignalsStopBehindTheTrain(signals: seq<string>, path: seq<string>, segments: set<string>, ticks: seq<Tick>)
    requires |signals| >= 2
    requires var (_, passes) := Monitor(Start(signals, path), path, segments, ticks); NoneFails(ticks[..passes])
    ensures var (end, passes) := Monitor(Start(signals, path), path, segments, ticks);
            var reached := Reached(-1, path, segments, ticks[..passes]);
            && |end.infos| == |signals| && StoppedBehind(end.infos, reached)
            && (OnPathInOrder(signals, path) ==>
                  forall i, j :: 0 <= i < j < |signals| && end.infos[j].stopped ==> end.infos[i].stopped)
  {
    NoneStopped(Infos(signals, path), |signals|);
    MonitorKeepsValid(Start(signals, path), path, segments, ticks, -1);
    var (end, passes) := Monitor(Start(signals, path), path, segments, ticks);
    var reached := Reached(-1, path, segments, ticks[..passes]);
    hide Monitor, Reached, Position, StoppedCount;
    assert StoppedBehind(end.infos, reached);
    if OnPathInOrder(signals, path) {
      StoppedPrefix(signals, path, end.infos, reached);
    }
  }

  lemma StoppedPrefix(signals: seq<string>, path: seq<string>, infos: seq<SignalInfo>, reached: int)
    requires OnPathInOrder(signals, path) && SameSignals(infos, Infos(signals, path)) && StoppedBehind(infos, reached)
    ensures forall i, j :: 0 <= i < j < |signals| && infos[j].stopped ==> infos[i].stopped
  {
    InfosAreOrdered(signals, path);
    assert forall i :: 0 <= i < |infos| ==> infos[i].index == Infos(signals, path)[i].index;
    hide Infos, OnPathInOrder;
  }

  // ----- when a passed signal is left permissive -----

  /** The last position known after the ticks, given the one known before. */
  function LastKnown(known: Option<nat>, path: seq<string>, segments: set<string>, ticks: seq<Tick>): Option<nat>
    decreases |ticks|
  {
    if ticks == [] then known
    else
      LastKnown(match Position(path, segments, ticks[0].reported) case OnRoute(pos) => Some(pos) case _ => known,
                path, segments, ticks[1..])
  }

  /** At tick k the train is reported somewhere else than before, at or behind the signal, whose stop command
      goes through. */
  predicate StoppedAt(known: Option<nat>, path: seq<string>, segments: set<string>, ticks: seq<Tick>, k: nat,
                      id: string, index: nat)
    requires k < |ticks|
  {
    var q := Position(path, segments, ticks[k].reported);
    && q.OnRoute? && LastKnown(known, path, segments, ticks[..k]) != Some(q.index)
    && index <= q.index && id !in ticks[k].failing
  }

  predicate StoppedDuring(known: Option<nat>, path: seq<string>, segments: set<string>, ticks: seq<Tick>,
                          id: string, index: nat)
  {
    exists k :: 0 <= k < |ticks| && StoppedAt(known, path, segments, ticks, k, id, index)
  }

  lemma LastKnownStep(known: Option<nat>, path: seq<string>, segments: set<string>, ticks: seq<Tick>, k: nat)
    requires 1 <= k <= |ticks|
    ensures LastKnown(known, path, segments, ticks[..k])
         == LastKnown(LastKnown(known, path, segments, ticks[..1]), path, segments, ticks[1..][..k - 1])
  {
    assert ticks[..1][1..] == [] && ticks[..k][1..] == ticks[1..][..k - 1];
  }

  lemma StoppedDuringStep(known: Option<nat>, path: seq<string>, segments: set<string>, ticks: seq<Tick>,
                          id: string, index: nat)
    requires ticks != []
    ensures StoppedDuring(known, path, segments, ticks, id, index) <==>
            StoppedAt(known, path, segments, ticks, 0, id, index)
            || StoppedDuring(LastKnown(known, path, segments, ticks[..1]), path, segments, ticks[1..], id, index)
  {
    var now := LastKnown(known, path, segments, ticks[..1]);
    forall k | 1 <= k < |ticks|
      ensures StoppedAt(known, path, segments, ticks, k, id, index)
              <==> StoppedAt(now, path, segments, ticks[1..], k - 1, id, index)
    {
      LastKnownStep(known, path, segments, ticks, k);
    }
    hide StoppedAt;
    if StoppedDuring(now, path, segments, ticks[1..], id, index) {
      var k :| 0 <= k < |ticks[1..]| && StoppedAt(now, path, segments, ticks[1..], k, id, index);
      assert StoppedAt(known, path, segments, ticks, k + 1, id, index);
    }
  }

  predicate Knows(d: Drive, known: Option<nat>) {
    known == if d.first then None else Some(d.previous)
  }

  lemma ObserveStops(d: Drive, known: Option<nat>, path: seq<string>, segments: set<string>, ticks: seq<Tick>)
    requires Knows(d, known) && ticks != []
    ensures var d' := Observe(d, path, segments, ticks[0]);
            && Knows(d', LastKnown(known, path, segments, ticks[..1])) && SameSignals(d'.infos, d.infos)
            && forall i :: 0 <= i < |d.infos| ==>
                 (d'.infos[i].stopped <==>
                    (d.infos[i].stopped
                     || (!d.infos[i].isDestination
                         && StoppedAt(known, path, segments, ticks, 0, d.infos[i].id, d.infos[i].index))))
  {
    assert ticks[..1][1..] == [];
  }

  lemma {:induction false} StoppedExactly(d: Drive, known: Option<nat>, path: seq<string>, segments: set<string>,
                                          ticks: seq<Tick>)
    requires Knows(d, known)
    ensures var (end, passes) := Monitor(d, path, segments, ticks);
            && SameSignals(end.infos, d.infos)
            && forall i :: 0 <= i < |d.infos| ==>
                 (end.infos[i].stopped <==>
                    (d.infos[i].stopped
                     || (!d.infos[i].isDestination
                         && StoppedDuring(known, path, segments, ticks[..passes], d.infos[i].id, d.infos[i].index))))
    decreases |ticks|
  {
    var (end, passes) := Monitor(d, path, segments, ticks);
    hide Observe, StoppedAt, LastKnown, Knows;
    if passes == 0 {
      assert ticks[..0] == [];
    } else {
      var seen := ticks[..passes];
      ObserveStops(d, known, path, segments, seen);
      var d', now := Observe(d, path, segments, ticks[0]), LastKnown(known, path, segments, seen[..1]);
      StoppedExactly(d', now, path, segments, ticks[1..]);
      assert seen[1..] == ticks[1..][..passes - 1];
      hide StoppedDuring;
      forall i | 0 <= i < |d.infos|
        ensures StoppedDuring(known, path, segments, seen, d.infos[i].id, d.infos[i].index) <==>
                StoppedAt(known, path, segments, seen, 0, d.infos[i].id, d.infos[i].index)
                || StoppedDuring(now, path, segments, seen[1..], d'.infos[i].id, d'.infos[i].index)
      {
        assert d'.infos[i].(stopped := false) == d.infos[i].(stopped := false);
        StoppedDuringStep(known, path, segments, seen, d.infos[i].id, d.infos[i].index);
      }
    }
  }

  /** However the train moves and whichever commands fail: a signal is stopped at the end exactly when it is not the
      destination and some pass saw the train move to, or first appear at, a place at or behind the signal while its
      stop command went through. */
  lemma MonitoredExactly(signals: seq<string>, path: seq<string>, segments: set<string>, ticks: seq<Tick>)
    ensures var infos := Infos(signals, path);
            var (end, passes) := Monitor(Start(signals, path), path, segments, ticks);
            && |end.infos| == |signals|
            && forall i :: 0 <= i < |signals| ==>
                 (end.infos[i].stopped <==>
                    i < |signals| - 1 && StoppedDuring(None, path, segments, ticks[..passes], signals[i], infos[i].index))
  {
    StoppedExactly(Start(signals, path), None, path, segments, ticks);
    hide StoppedDuring, Monitor;
  }

  // ----- when the loop ends -----

  /** Every signal before the destination has been stopped by the ticks. */
  predicate AllStopped(signals: seq<string>, path: seq<string>, segments: set<string>, ticks: seq<Tick>) {
    forall i :: 0 <= i < |signals| - 1 ==>
      StoppedDuring(None, path, segments, ticks, signals[i], Infos(signals, path)[i].index)
  }

  /** At tick k the server does not run, the route is not the train's any more, or no signal is left to stop. */
  predicate EndsAt(signals: seq<string>, path: seq<string>, segments: set<string>, ticks: seq<Tick>, k: nat)
    requires k < |ticks|
  {
    !ticks[k].running || !ticks[k].granted || AllStopped(signals, path, segments, ticks[..k])
  }

  /** Up to any tick that the loop gets to, monitoring is monitoring of the ticks so far. */
  lemma {:induction false} MonitorSoFar(d: Drive, path: seq<string>, segments: set<string>, ticks: seq<Tick>, k: nat)
    requires k <= Monitor(d, path, segments, ticks).1
    ensures Monitor(d, path, segments, ticks[..k]).1 == k
    ensures var (end, passes) := Monitor(d, path, segments, ticks);
            var now := Monitor(d, path, segments, ticks[..k]).0;
            && (k < passes ==> Continues(now, ticks[k]))
            && (k == passes ==> now == end)
    decreases k
  {
    hide Observe;
    if k > 0 {
      var d' := Observe(d, path, segments, ticks[0]);
      assert ticks[..k][0] == ticks[0] && ticks[..k][1..] == ticks[1..][..k - 1];
      MonitorSoFar(d', path, segments, ticks[1..], k - 1);
    } else {
      assert ticks[..0] == [];
    }
  }

  lemma {:induction false} AllCounted(infos: seq<SignalInfo>, n: nat)
    requires n <= |infos|
    ensures StoppedUpTo(infos, n) == n <==> forall i :: 0 <= i < n ==> infos[i].stopped
  {
    if n > 0 {
      AllCounted(infos, n - 1);
    }
  }

  /** After all the ticks, the count says that none is left exactly when all signals before the destination have been
      stopped. */
  lemma CountMeansAllStopped(signals: seq<string>, path: seq<string>, segments: set<string>, ticks: seq<Tick>)
    requires |signals| >= 2 && Monitor(Start(signals, path), path, segments, ticks).1 == |ticks|
    ensures var end := Monitor(Start(signals, path), path, segments, ticks).0;
            |end.infos| == |signals| && (end.count < |signals| - 1 <==> !AllStopped(signals, path, segments, ticks))
  {
    var n := |signals| - 1;
    var end := Monitor(Start(signals, path), path, segments, ticks).0;
    assert ticks[..|ticks|] == ticks;
    MonitoringIsSound(signals, path, segments, ticks);
    MonitoredExactly(signals, path, segments, ticks);
    hide Monitor, Reached, StoppedDuring, Infos;
    AllCounted(end.infos, n);
    assert StoppedCount(end.infos) == StoppedUpTo(end.infos, n);
  }

  /** The loop ends with the first tick at which the server does not run, the route is not the train's any more, or all
      signals before the destination have been stopped; if there is none, it goes on. */
  lemma EndsExactly(signals: seq<string>, path: seq<string>, segments: set<string>, ticks: seq<Tick>)
    requires |signals| >= 2
    ensures var passes := Monitor(Start(signals, path), path, segments, ticks).1;
            && passes <= |ticks|
            && (forall k :: 0 <= k < passes ==> !EndsAt(signals, path, segments, ticks, k))
            && (passes < |ticks| ==> EndsAt(signals, path, segments, ticks, passes))
  {
    var d := Start(signals, path);
    var (end, passes) := Monitor(d, path, segments, ticks);
    forall k | 0 <= k <= passes
      ensures k < |ticks| ==> (EndsAt(signals, path, segments, ticks, k) <==> k == passes)
    {
      MonitorSoFar(d, path, segments, ticks, k);
      CountMeansAllStopped(signals, path, segments, ticks[..k]);
      hide Monitor, AllStopped, Start;
    }
    hide EndsAt;
  }

  /** The train has been reported at or behind the signal, which is not the destination. */
  predicate Passed(signals: seq<string>, path: seq<string>, segments: set<string>, ticks: seq<Tick>, i: nat)
    requires i < |signals|
  {
    i < |signals| - 1 && Infos(signals, path)[i].index <= Reached(-1, path, segments, ticks)
  }

  /** "All passed signals were set to stop", as documented for a successful end of the loop, holds exactly when each
      of them has such a pass. */
  lemma PassedAreStoppedIff(signals: seq<string>, path: seq<string>, segments: set<string>, ticks: seq<Tick>)
    ensures var infos := Infos(signals, path);
            var (end, passes) := Monitor(Start(signals, path), path, segments, ticks);
            var seen := ticks[..passes];
            && |end.infos| == |signals|
            && ((forall i :: 0 <= i < |signals| && Passed(signals, path, segments, seen, i) ==> end.infos[i].stopped) <==>
                (forall i :: 0 <= i < |signals| && Passed(signals, path, segments, seen, i) ==>
                   StoppedDuring(None, path, segments, seen, signals[i], infos[i].index)))
  {
    MonitoredExactly(signals, path, segments, ticks);
    hide StoppedDuring, Monitor, Infos, Reached;
  }

  lemma {:induction false} StaysKnown(pos: nat, path: seq<string>, segments: set<string>, ticks: seq<Tick>)
    requires forall k :: 0 <= k < |ticks| ==> Position(path, segments, ticks[k].reported) == OnRoute(pos)
    ensures ticks != [] ==> LastKnown(None, path, segments, ticks) == Some(pos)
    ensures LastKnown(Some(pos), path, segments, ticks) == Some(pos)
    decreases |ticks|
  {
    hide Position;
    if ticks != [] {
      StaysKnown(pos, path, segments, ticks[1..]);
    }
  }

  /** While the train stays where its first report found it, only that report's commands count. */
  lemma RefusedAtFirstReport(path: seq<string>, segments: set<string>, seen: seq<Tick>, pos: nat, id: string, index: nat)
    requires forall k :: 0 <= k < |seen| ==> Position(path, segments, seen[k].reported) == OnRoute(pos)
    requires seen != [] ==> id in seen[0].failing
    ensures !StoppedDuring(None, path, segments, seen, id, index)
  {
    hide Position;
    forall k | 0 <= k < |seen| ensures !StoppedAt(None, path, segments, seen, k, id, index) {
      StaysKnown(pos, path, segments, seen[..k]);
    }
    hide StoppedAt;
  }

  lemma {:induction false} OpenFirst(infos: seq<SignalInfo>, n: nat)
    requires 1 <= n <= |infos| && !infos[0].stopped
    ensures StoppedUpTo(infos, n) < n
  {
    if n > 1 {
      OpenFirst(infos, n - 1);
    }
  }

  lemma {:induction false} PassesAreGranted(d: Drive, path: seq<string>, segments: set<string>, ticks: seq<Tick>)
    ensures var (_, passes) := Monitor(d, path, segments, ticks);
            forall k :: 0 <= k < passes ==> ticks[k].running && ticks[k].granted
    decreases |ticks|
  {
    hide Observe;
    if ticks != [] && Continues(d, ticks[0]) {
      PassesAreGranted(Observe(d, path, segments, ticks[0]), path, segments, ticks[1..]);
    }
  }

  /** With the first signal still open, the loop goes on until the server stops or the route is released. */
  lemma OpenSignalKeepsLooping(signals: seq<string>, path: seq<string>, segments: set<string>, ticks: seq<Tick>)
    requires |signals| >= 2
    ensures var (end, passes) := Monitor(Start(signals, path), path, segments, ticks);
            && |end.infos| == |signals|
            && (!end.infos[0].stopped && passes < |ticks| ==> !ticks[passes].running || !ticks[passes].granted)
  {
    MonitoringIsSound(signals, path, segments, ticks);
    var (end, _) := Monitor(Start(signals, path), path, segments, ticks);
    if !end.infos[0].stopped {
      OpenFirst(end.infos, |signals| - 1);
    }
  }

  lemma ReachedAtLeast(before: int, path: seq<string>, segments: set<string>, ticks: seq<Tick>, pos: nat)
    requires ticks != [] && Position(path, segments, ticks[0].reported) == OnRoute(pos)
    ensures Reached(before, path, segments, ticks) >= pos
  {
    hide Position;
  }

  /** Reported at one place, with the first command refused, until the route is released. */
  predicate RefusedThenReleased(signals: seq<string>, path: seq<string>, segments: set<string>, ticks: seq<Tick>) {
    && |signals| >= 2 && |ticks| >= 2
    && Position(path, segments, ticks[0].reported).OnRoute? && signals[0] in ticks[0].failing
    && (forall k :: 0 <= k < |ticks| - 1 ==> ticks[k].running && ticks[k].granted && ticks[k].reported == ticks[0].reported)
    && !ticks[|ticks| - 1].granted
  }

  /** The documented promise does fail: if the first signal's stop command is refused once, it is lost. The train may
      be seen at that place any number of times, whether or not commands still fail; when the route is then released,
      the loop has ended successfully, the signal has been passed, and it has not been stopped. */
  lemma RefusedStopIsLost(signals: seq<string>, path: seq<string>, segments: set<string>, ticks: seq<Tick>)
    requires RefusedThenReleased(signals, path, segments, ticks)
    ensures var (end, passes) := Monitor(Start(signals, path), path, segments, ticks);
            && |end.infos| == |signals| && passes == |ticks| - 1
            && Passed(signals, path, segments, ticks[..passes], 0) && !end.infos[0].stopped
  {
    var (end, passes) := Monitor(Start(signals, path), path, segments, ticks);
    var pos := Position(path, segments, ticks[0].reported).index;
    var seen := ticks[..passes];
    assert Infos(signals, path)[0].index == 0;
    PassesAreGranted(Start(signals, path), path, segments, ticks);
    hide Position, Monitor, Infos;
    RefusedAtFirstReport(path, segments, seen, pos, signals[0], 0);
    MonitoredExactly(signals, path, segments, ticks);
    OpenSignalKeepsLooping(signals, path, segments, ticks);
    ReachedAtLeast(-1, path, segments, seen, pos);
  }

  /** Such a drive exists. */
  lemma RefusedStopExample()
    ensures var refused := Tick(true, true, ["s2"], {"a"});
            RefusedThenReleased(["a", "b", "c"], ["s1", "s2"], {"s1", "s2"},
                                [refused, refused.(failing := {}), refused.(granted := false)])
  {
    var path, segments := ["s1", "s2"], {"s1", "s2"};
    assert path[0] != path[1];
    assert FindUnflagged(path, segments, "s2", 1) == 1;
    assert ["s2"][..0] == [];
    assert Search(path, segments, ["s2"]) == OnRoute(1);
  }
}
