/** The index from source and destination to route ids, keyed by the two signal names run together. */
module RouteIndex {
  import opened Wrappers
  import opened RouteTable

  function ConnectionKey(r: Route): string {
    r.source + r.destination
  }

  /** Each route is filed under its id. */
  predicate Filed(routes: map<string, Route>) {
    forall id :: id in routes ==> routes[id].id == id
  }

  /** An order in which a hash table may be walked: every id once. */
  predicate Enumerates(order: seq<string>, routes: map<string, Route>) {
    (forall i :: 0 <= i < |order| ==> order[i] in routes) &&
    (forall id :: id in routes ==> id in order) &&
    Distinct(order)
  }

  predicate Distinct(ids: seq<string>) {
    forall i, j :: 0 <= i < j < |ids| ==> ids[i] != ids[j]
  }

  /** The plain scan: the ids whose source and destination run together give the key. */
  function Scan(routes: map<string, Route>, order: seq<string>, key: string): (ids: seq<string>)
    requires forall i :: 0 <= i < |order| ==> order[i] in routes
  {
    if order == [] then []
    else
      var last := order[|order| - 1];
      Scan(routes, order[..|order| - 1], key) + if ConnectionKey(routes[last]) == key then [last] else []
  }

  ghost predicate Indexes(index: map<string, seq<string>>, routes: map<string, Route>, order: seq<string>)
    requires forall i :: 0 <= i < |order| ==> order[i] in routes
  {
    forall key :: (key in index <==> Scan(routes, order, key) != [])
                  && (key in index ==> index[key] == Scan(routes, order, key))
  }

  lemma {:induction false} ScanIsExact(routes: map<string, Route>, order: seq<string>, key: string)
    requires (forall i :: 0 <= i < |order| ==> order[i] in routes) && Distinct(order)
    ensures var ids := Scan(routes, order, key);
            Distinct(ids) && forall id :: id in ids <==> id in order && ConnectionKey(routes[id]) == key
  {
    if order != [] {
      var front, last := order[..|order| - 1], order[|order| - 1];
      ScanIsExact(routes, front, key);
      assert forall id :: id in order <==> id in front || id == last;
      assert last !in front;
    }
  }

  /** The ids come in the walking order: a scan of the first m ids is what the whole scan begins with. */
  lemma {:induction false} ScanPrefix(routes: map<string, Route>, order: seq<string>, m: nat, key: string)
    requires (forall i :: 0 <= i < |order| ==> order[i] in routes) && m <= |order|
    ensures var part, ids := Scan(routes, order[..m], key), Scan(routes, order, key);
            |part| <= |ids| && ids[..|part|] == part
  {
    if m == |order| {
      assert order[..m] == order;
    } else {
      var front := order[..|order| - 1];
      ScanPrefix(routes, front, m, key);
      assert front[..m] == order[..m];
    }
  }

  /** Of two routes between the signals, the one walked first comes first. */
  lemma FoundInOrder(routes: map<string, Route>, order: seq<string>, i: nat, j: nat, key: string)
    requires (forall k :: 0 <= k < |order| ==> order[k] in routes) && Distinct(order) && i < j < |order|
    requires routes[order[i]].source + routes[order[i]].destination == key
    requires routes[order[j]].source + routes[order[j]].destination == key
    ensures var ids := Scan(routes, order, key);
            exists p, q :: 0 <= p < q < |ids| && ids[p] == order[i] && ids[q] == order[j]
  {
    var part, ids := Scan(routes, order[..j], key), Scan(routes, order, key);
    ScanIsExact(routes, order[..j], key);
    ScanIsExact(routes, order, key);
    ScanPrefix(routes, order, j, key);
    assert order[..j][i] == order[i];
    hide Scan;
    var p :| 0 <= p < |part| && part[p] == order[i];
    var q :| 0 <= q < |ids| && ids[q] == order[j];
    assert ids[p] == order[i] && order[j] !in order[..j] && order[j] !in part;
  }

  class Interlocking {
    var routes: map<string, Route>
    var index: map<string, seq<string>>

    constructor (table: map<string, Route>, order: seq<string>)
      requires Filed(table) && Enumerates(order, table)
      ensures routes == table && Indexes(index, routes, order)
    {
      routes := table;
      new;
      CreateIndex(order);
    }

    method CreateIndex(order: seq<string>)
      requires Filed(routes) && Enumerates(order, routes)
      modifies this`index
      ensures Indexes(index, routes, order)
    {
      index := map[];
      assert forall key :: Scan(routes, order[..0], key) == [];
      assert (forall i :: 0 <= i < |order| ==> order[i] in routes) && forall id :: id in routes ==> routes[id].id == id;
      hide Scan, Indexes, Enumerates, Filed, ConnectionKey;
      for i := 0 to |order|
        invariant Indexes(index, routes, order[..i])
      {
        var route := routes[order[i]];
        var key := ConnectionKey(route);
        var ids := [];
        if key in index {
          ids := index[key];
        }
        Extended(index, routes, order, i, ids);
        index := index[key := ids + [route.id]];
      }
      assert order[..|order|] == order;
    }

    /** A null argument gives no list. */
    method GetRouteIds(source: Option<string>, destination: Option<string>) returns (ids: Option<seq<string>>)
      ensures ids == if source.Some? && destination.Some? then Lookup(index, source.value, destination.value) else None
    {
      if source == None || destination == None {
        return None;
      }
      var key := source.value + destination.value;
      if key in index {
        return Some(index[key]);
      }
      ids := None;
    }

    method GetRoute(id: Option<string>) returns (route: Option<Route>)
      requires Filed(routes)
      ensures route.Some? <==> id.Some? && id.value in routes
      ensures route.Some? ==> route.value == routes[id.value] && Some(route.value.id) == id
    {
      if id.Some? && id.value in routes {
        return Some(routes[id.value]);
      }
      route := None;
    }
  }

  function Lookup(index: map<string, seq<string>>, source: string, destination: string): Option<seq<string>> {
    if source + destination in index then Some(index[source + destination]) else None
  }

  /** One more route is added to the list of its key. */
  lemma Extended(was: map<string, seq<string>>, routes: map<string, Route>, order: seq<string>, i: nat, ids: seq<string>)
    requires i < |order| && (forall k :: 0 <= k < |order| ==> order[k] in routes)
    requires Indexes(was, routes, order[..i])
    requires var key := ConnectionKey(routes[order[i]]); ids == if key in was then was[key] else []
    ensures Indexes(was[ConnectionKey(routes[order[i]]) := ids + [order[i]]], routes, order[..i + 1])
  {
    assert order[..i + 1][..i] == order[..i];
  }

  // ----- the index agrees with a scan -----

  /** The routes with that source and that destination. */
  predicate Connects(r: Route, source: string, destination: string) {
    r.source == source && r.destination == destination
  }

  /** A lookup returns each id whose names run together give the same key, exactly once, in walking order. */
  lemma LookupIsScan(index: map<string, seq<string>>, routes: map<string, Route>, order: seq<string>,
                     source: string, destination: string)
    requires Enumerates(order, routes) && Indexes(index, routes, order)
    ensures var found := Lookup(index, source, destination);
            var ids := if found.Some? then found.value else [];
            && (found.Some? ==> ids != []) && Distinct(ids)
            && forall id :: id in ids <==> id in routes && ConnectionKey(routes[id]) == source + destination
  {
    ScanIsExact(routes, order, source + destination);
  }

  const PREFIX := "signal"

  ghost predicate Within(w: string, s: string) {
    exists i :: OccursAt(w, s, i)
  }

  predicate OccursAt(w: string, s: string, i: nat) {
    i + |w| <= |s| && s[i..i + |w|] == w
  }

  /** A signal name as the configurations have them. */
  ghost predicate SignalName(s: string) {
    |s| >= 6 && s[..6] == PREFIX && !Within(PREFIX, s[6..])
  }

  lemma PrefixNeverOverlapsItself(t: string, i: nat, j: nat)
    requires i <= j < i + 6 && j + 6 <= |t| && t[i..i + 6] == PREFIX && t[j..j + 6] == PREFIX
    ensures i == j
  {
    assert t[j] == t[j..j + 6][0] == t[i..i + 6][j - i];
  }

  /** Two signal names run together can be taken apart in one way only. */
  lemma SplitsAreUnique(s1: string, d1: string, s2: string, d2: string)
    requires SignalName(s1) && SignalName(d1) && SignalName(s2) && SignalName(d2)
    requires s1 + d1 == s2 + d2
    ensures s1 == s2 && d1 == d2
  {
    if |s1| < |s2| {
      NotLonger(s1, d1, s2, d2);
    } else if |s2| < |s1| {
      NotLonger(s2, d2, s1, d1);
    } else {
      assert (s1 + d1)[..|s1|] == s1 && (s2 + d2)[..|s1|] == s2;
      assert (s1 + d1)[|s1|..] == d1 && (s2 + d2)[|s1|..] == d2;
    }
  }

  lemma NotLonger(s1: string, d1: string, s2: string, d2: string)
    requires SignalName(s1) && SignalName(d1) && SignalName(s2) && SignalName(d2)
    requires s1 + d1 == s2 + d2
    ensures |s2| <= |s1|
  {
    var t := s1 + d1;
    var i, j := |s1|, |s2|;
    assert t[i..i + 6] == d1[..6] && t[j..j + 6] == d2[..6];
    if i < j < i + 6 {
      PrefixNeverOverlapsItself(t, i, j);
    } else if i + 6 <= j {
      PrefixInside(s2, d2, i);
    }
  }

  lemma PrefixInside(s: string, d: string, i: nat)
    requires 6 <= i && i + 6 <= |s| && (s + d)[i..i + 6] == PREFIX
    ensures Within(PREFIX, s[6..])
  {
    assert s[6..][i - 6..i] == (s + d)[i..i + 6];
    assert OccursAt(PREFIX, s[6..], i - 6);
  }

  /** If all signal ids are "signal" and a suffix without "signal" in it, a lookup returns exactly the routes with
      that source and that destination. */
  lemma LookupFindsConnections(index: map<string, seq<string>>, routes: map<string, Route>, order: seq<string>,
                               source: string, destination: string)
    requires Enumerates(order, routes) && Indexes(index, routes, order)
    requires SignalName(source) && SignalName(destination)
    requires forall id :: id in routes ==> SignalName(routes[id].source) && SignalName(routes[id].destination)
    ensures var found := Lookup(index, source, destination);
            var ids := if found.Some? then found.value else [];
            Distinct(ids) && forall id :: id in ids <==> id in routes && Connects(routes[id], source, destination)
  {
    LookupIsScan(index, routes, order, source, destination);
    hide SignalName, Indexes, Lookup, Enumerates;
    forall id | id in routes
      ensures ConnectionKey(routes[id]) == source + destination <==> Connects(routes[id], source, destination)
    {
      if ConnectionKey(routes[id]) == source + destination {
        SplitsAreUnique(routes[id].source, routes[id].destination, source, destination);
      }
    }
  }

  /** Without that, one lookup can return a route between other signals. */
  lemma NamesCanRunTogether(a: Route, b: Route)
    requires a.source == "signal1" && a.destination == "signal2signal3"
    requires b.source == "signal1signal2" && b.destination == "signal3" && a.id != b.id
    ensures var routes := map[a.id := a, b.id := b];
            && Enumerates([a.id, b.id], routes)
            && forall index :: Indexes(index, routes, [a.id, b.id]) ==>
                 Lookup(index, a.source, a.destination) == Some([a.id, b.id])
                 && !Connects(b, a.source, a.destination)
  {
    var routes := map[a.id := a, b.id := b];
    var order := [a.id, b.id];
    assert order[..1] == [a.id] && order[..1][..0] == [];
    assert ConnectionKey(a) == ConnectionKey(b);
    assert Scan(routes, [], ConnectionKey(a)) == [];
    assert Scan(routes, [a.id], ConnectionKey(a)) == [a.id];
    assert Scan(routes, order, ConnectionKey(a)) == [a.id, b.id];
  }
}
