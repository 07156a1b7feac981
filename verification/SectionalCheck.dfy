/** The direct sectional conflict check: is a granted, conflicting route already clear of the requested one? */
module SectionalCheck {
  import opened RouteTable

  /** Some signal guarding the segment's part of the network shows a permissive aspect. */
  predicate EntryPermissive(l: Layout, t: Track, segment: string) {
    segment in l.entry && exists i :: 0 <= i < |l.entry[segment]| && t.Permissive(l.entry[segment][i])
  }

  /** An occupied segment lies at or before index i, with no signal after it up to i. */
  predicate SectionOccupied(l: Layout, t: Track, path: seq<string>, i: int)
    requires i < |path|
  {
    exists j :: 0 <= j <= i && path[j] in l.segments && t.Occupied(path[j])
                && forall k :: j < k <= i ==> path[k] !in l.signals
  }

  predicate SegmentSafe(l: Layout, t: Track, granted: seq<string>, requested: seq<string>, i: nat)
    requires i < |granted|
  {
    granted[i] in l.segments && granted[i] in requested ==>
      !EntryPermissive(l, t, granted[i]) && !SectionOccupied(l, t, granted, i)
  }

  /** The full check: every segment of the granted path that the requested path also uses is safe. */
  predicate PathsSafe(l: Layout, t: Track, granted: seq<string>, requested: seq<string>) {
    forall i :: 0 <= i < |granted| ==> SegmentSafe(l, t, granted, requested, i)
  }

  predicate ConflictSafe(l: Layout, t: Track, granted: string, requested: string) {
    granted in l.routes && requested in l.routes
    && PathsSafe(l, t, l.routes[granted].path, l.routes[requested].path)
  }

  method IsAnyEntrySignalPermissive(l: Layout, t: Track, segment: string) returns (b: bool)
    ensures b == EntryPermissive(l, t, segment)
  {
    if segment !in l.entry {
      return false;
    }
    var signals := l.entry[segment];
    for i := 0 to |signals|
      invariant forall k :: 0 <= k < i ==> !t.Permissive(signals[k])
    {
      if t.Permissive(signals[i]) {
        return true;
      }
    }
    return false;
  }

  method IsSectionOccupied(l: Layout, t: Track, path: seq<string>, index: nat) returns (b: bool)
    requires index < |path| && l.segments !! l.signals
    ensures b == SectionOccupied(l, t, path, index)
  {
    var i: int := index;
    while i >= 0
      invariant -1 <= i <= index
      invariant forall k :: i < k <= index ==> path[k] !in l.signals
      invariant forall k :: i < k <= index ==> path[k] in l.segments ==> !t.Occupied(path[k])
    {
      if path[i] in l.segments {
        if t.Occupied(path[i]) {
          return true;
        }
      } else if path[i] in l.signals {
        return false;
      }
      i := i - 1;
    }
    return false;
  }

  /** Within one section a segment nearer to the signal needs no scan of its own. */
  lemma EarlierScanIsCovered(l: Layout, t: Track, path: seq<string>, i: nat, m: nat)
    requires i <= m < |path|
    requires forall k :: i < k <= m ==> path[k] !in l.signals
    requires !SectionOccupied(l, t, path, m)
    ensures !SectionOccupied(l, t, path, i)
  {
  }

  /** The backward search that scans each section of the granted path at most once agrees with the full check. */
  method IsRouteConflictSafe(l: Layout, t: Track, granted: string, requested: string) returns (safe: bool)
    requires l.segments !! l.signals
    ensures safe == ConflictSafe(l, t, granted, requested)
  {
    if granted !in l.routes || requested !in l.routes {
      return false;
    }
    var g, r := l.routes[granted].path, l.routes[requested].path;
    var encounteredSignal := true;
    ghost var m := 0;  // the index last scanned from, while no signal has been met since
    for i := |g| downto 0
      invariant forall k :: i <= k < |g| ==> SegmentSafe(l, t, g, r, k)
      invariant !encounteredSignal ==>
                  i <= m < |g| && !SectionOccupied(l, t, g, m) && forall k :: i <= k <= m ==> g[k] !in l.signals
    {
      if g[i] in l.signals {
        encounteredSignal := true;
      } else if g[i] in l.segments {
        for j := 0 to |r|
          invariant !encounteredSignal ==>
                      i <= m < |g| && !SectionOccupied(l, t, g, m) && forall k :: i <= k <= m ==> g[k] !in l.signals
          invariant g[i] in r[..j] ==> !EntryPermissive(l, t, g[i]) && !encounteredSignal
        {
          if g[i] == r[j] {
            var permissive := IsAnyEntrySignalPermissive(l, t, r[j]);
            if permissive {
              assert !SegmentSafe(l, t, g, r, i);
              return false;
            }
            if encounteredSignal {
              encounteredSignal := false;
              var occupied := IsSectionOccupied(l, t, g, i);
              if occupied {
                assert !SegmentSafe(l, t, g, r, i);
                return false;
              }
              m := i;
            }
          }
        }
        assert r[..|r|] == r;
        if g[i] in r {
          EarlierScanIsCovered(l, t, g, i, m);
        }
      }
    }
    return true;
  }

  /** What the check says in full: both routes are known, and for every segment of the granted path that the requested
      path also has, every signal guarding entry to it shows Stop, and between every occupied segment before or at it
      and itself there is a signal. */
  lemma ConflictSafeMeaning(l: Layout, t: Track, granted: string, requested: string)
    ensures ConflictSafe(l, t, granted, requested) <==>
            && granted in l.routes && requested in l.routes
            && var g, r := l.routes[granted].path, l.routes[requested].path;
               forall i :: 0 <= i < |g| && g[i] in l.segments && g[i] in r ==>
                 && (g[i] in l.entry ==> forall x :: x in l.entry[g[i]] ==> t.AspectOf(x) == Stop)
                 && (forall p, j :: p in t.at && 0 <= j <= i && g[j] == p.1 && p.1 in l.segments ==>
                       exists k :: j < k <= i && g[k] in l.signals)
  {
    if granted in l.routes && requested in l.routes {
      var g, r := l.routes[granted].path, l.routes[requested].path;
      forall i | 0 <= i < |g|
        ensures SegmentSafe(l, t, g, r, i) <==>
                (g[i] in l.segments && g[i] in r ==>
                   && (g[i] in l.entry ==> forall x :: x in l.entry[g[i]] ==> t.AspectOf(x) == Stop)
                   && (forall p, j :: p in t.at && 0 <= j <= i && g[j] == p.1 && p.1 in l.segments ==>
                         exists k :: j < k <= i && g[k] in l.signals))
      {
        EntryPermissiveMeaning(l, t, g[i]);
        SectionOccupiedMeaning(l, t, g, i);
        hide EntryPermissive, SectionOccupied;
      }
      hide SegmentSafe;
    }
  }

  lemma EntryPermissiveMeaning(l: Layout, t: Track, segment: string)
    ensures !EntryPermissive(l, t, segment) <==>
            (segment in l.entry ==> forall x :: x in l.entry[segment] ==> t.AspectOf(x) == Stop)
  {
    if segment in l.entry && !EntryPermissive(l, t, segment) {
      forall x | x in l.entry[segment] ensures t.AspectOf(x) == Stop {
        var i :| 0 <= i < |l.entry[segment]| && l.entry[segment][i] == x;
        assert !t.Permissive(l.entry[segment][i]);
      }
    }
  }

  lemma SectionOccupiedMeaning(l: Layout, t: Track, path: seq<string>, i: nat)
    requires i < |path|
    ensures !SectionOccupied(l, t, path, i) <==>
            forall p, j :: p in t.at && 0 <= j <= i && path[j] == p.1 && p.1 in l.segments ==>
              exists k :: j < k <= i && path[k] in l.signals
  {
    if !SectionOccupied(l, t, path, i) {
      forall p, j | p in t.at && 0 <= j <= i && path[j] == p.1 && p.1 in l.segments
        ensures exists k :: j < k <= i && path[k] in l.signals
      {
        assert t.Occupied(path[j]);
      }
    }
  }
}
