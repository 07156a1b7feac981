/** Grabbing and releasing trains: grab-ids handed out round robin, each bound to an engine instance. */
module TrainGrabs {
  import opened Wrappers

  datatype Slot = Slot(valid: bool, name: Option<string>, instance: int)

  /** One engine instance as shared with the container: the request flags, and the container's answer. */
  datatype Instance = Instance(grab: bool, release: bool, engineType: int, inUse: bool)

  datatype Fleet = Fleet(slots: seq<Slot>, next: nat, instances: seq<Instance>)

  /** As many grab-ids as engine instances, at least one. */
  predicate Shaped(f: Fleet) {
    0 < |f.slots| == |f.instances| && f.next < |f.slots|
  }

  datatype Reply = GrabId(id: nat) | EngineNotSet | AllInUse | AlreadyGrabbed

  function Inc(x: nat, n: nat): (y: nat)
    requires x < n
    ensures y < n
  {
    if x == n - 1 then 0 else x + 1
  }

  // ----- the search for a free grab-id -----

  /** The ids looked at, in cyclic order from `from`, up to and including the first free one. */
  function Probes(slots: seq<Slot>, from: nat, k: nat): (ids: seq<nat>)
    requires from < |slots|
    ensures forall i :: 0 <= i < |ids| ==> ids[i] < |slots|
    decreases k
  {
    if k == 0 then [] else [from] + if slots[from].valid then Probes(slots, Inc(from, |slots|), k - 1) else []
  }

  function LastProbe(slots: seq<Slot>, from: nat, k: nat): (id: nat)
    requires from < |slots| && k > 0
    ensures id < |slots|
    ensures Probes(slots, from, k) != [] && id == Probes(slots, from, k)[|Probes(slots, from, k)| - 1]
    decreases k
  {
    if slots[from].valid && k > 1 then LastProbe(slots, Inc(from, |slots|), k - 1) else from
  }

  /** After k steps the search from start stands at next, and will end where it was to end from the start. */
  predicate Searching(slots: seq<Slot>, start: nat, k: nat, next: nat) {
    var n := |slots|;
    && start < n && next < n && 1 <= k <= n && (next == start + k || next == start + k - n)
    && if k < n then LastProbe(slots, next, n - k) == LastProbe(slots, start, n)
       else slots[LastProbe(slots, start, n)].valid
  }

  lemma SearchBegins(slots: seq<Slot>, start: nat)
    requires start < |slots|
    ensures if slots[start].valid then Searching(slots, start, 1, Inc(start, |slots|))
            else LastProbe(slots, start, |slots|) == start
  {
    hide Probes;
  }

  lemma SearchGoesOn(slots: seq<Slot>, start: nat, k: nat, next: nat)
    requires Searching(slots, start, k, next) && slots[next].valid
    ensures if next == start then slots[LastProbe(slots, start, |slots|)].valid
            else k < |slots| && Searching(slots, start, k + 1, Inc(next, |slots|))
  {
    hide Probes;
  }

  lemma SearchEnds(slots: seq<Slot>, start: nat, k: nat, next: nat)
    requires Searching(slots, start, k, next) && !slots[next].valid && slots[start].valid
    ensures LastProbe(slots, start, |slots|) == next
  {
    hide Probes;
  }

  function Search(f: Fleet): (ids: seq<nat>)
    requires Shaped(f)
  {
    Probes(f.slots, f.next, |f.slots|)
  }

  /** A walk along the cycle of ids. */
  predicate Cyclic(ids: seq<nat>, start: nat, n: nat) {
    (forall i :: 0 <= i < |ids| ==> ids[i] < n) &&
    (ids != [] ==> ids[0] == start) &&
    (forall i :: 0 <= i < |ids| - 1 ==> ids[i + 1] == Inc(ids[i], n))
  }

  lemma {:induction false} ProbesWalk(slots: seq<Slot>, from: nat, k: nat)
    requires from < |slots|
    ensures Cyclic(Probes(slots, from, k), from, |slots|)
    ensures forall i :: 0 <= i < |Probes(slots, from, k)| - 1 ==> slots[Probes(slots, from, k)[i]].valid
    ensures var ids := Probes(slots, from, k);
            k > 0 ==> 0 < |ids| <= k && (slots[ids[|ids| - 1]].valid ==> |ids| == k)
    decreases k
  {
    if k > 0 && slots[from].valid {
      ProbesWalk(slots, Inc(from, |slots|), k - 1);
      var rest := Probes(slots, Inc(from, |slots|), k - 1);
      assert Probes(slots, from, k) == [from] + rest;
      hide Probes;
      JoinWalks([from], rest, from, |slots|);
    }
  }

  /** The id at distance k from `start`. */
  function AtOffset(start: nat, k: nat, n: nat): (x: nat)
    requires start < n && k < n
    ensures x < n
  {
    if start + k < n then start + k else start + k - n
  }

  lemma {:induction false} WalkOffsets(ids: seq<nat>, start: nat, n: nat, i: nat)
    requires start < n && Cyclic(ids, start, n) && i < |ids| && i < n
    ensures ids[i] == AtOffset(start, i, n)
  {
    if i > 0 {
      WalkOffsets(ids, start, n, i - 1);
      assert ids[i - 1 + 1] == Inc(ids[i - 1], n);
    }
  }

  /** A walk with n steps meets every id. */
  lemma FullWalkMeetsAll(ids: seq<nat>, start: nat, n: nat, x: nat)
    requires start < n && Cyclic(ids, start, n) && |ids| >= n && x < n
    ensures x in ids
  {
    var k := if x >= start then x - start else x + n - start;
    WalkOffsets(ids, start, n, k);
    assert ids[k] == x;
  }

  /** A walk that starts behind g meets every other id before it comes to g. */
  lemma WalkAroundMeetsAll(ids: seq<nat>, g: nat, n: nat, i: nat, x: nat)
    requires g < n && x < n && x != g && Cyclic(ids, Inc(g, n), n) && i < |ids| && ids[i] == g
    ensures x in ids[..i]
  {
    var start := Inc(g, n);
    if i < n - 1 {
      WalkOffsets(ids, start, n, i);
      assert false;
    }
    var k := if x >= start then x - start else x + n - start;
    WalkOffsets(ids, start, n, k);
    assert ids[..i][k] == x;
  }

  predicate AllValid(slots: seq<Slot>) {
    forall i :: 0 <= i < |slots| ==> slots[i].valid
  }

  /** The search ends at a free id exactly when there is one; every id before it is in use. */
  lemma SearchFindsFree(f: Fleet)
    requires Shaped(f)
    ensures var ids := Search(f);
            && ids != [] && Cyclic(ids, f.next, |f.slots|)
            && (forall i :: 0 <= i < |ids| - 1 ==> f.slots[ids[i]].valid)
            && (f.slots[ids[|ids| - 1]].valid <==> AllValid(f.slots))
            && (AllValid(f.slots) ==> Inc(ids[|ids| - 1], |f.slots|) == f.next)
  {
    var ids, n := Search(f), |f.slots|;
    ProbesWalk(f.slots, f.next, n);
    if f.slots[ids[|ids| - 1]].valid {
      forall x | 0 <= x < n ensures f.slots[x].valid {
        FullWalkMeetsAll(ids, f.next, n, x);
      }
    }
    if AllValid(f.slots) {
      WalkOffsets(ids, f.next, n, n - 1);
    }
  }

  // ----- grab and release -----

  predicate Held(slots: seq<Slot>, train: string) {
    exists i :: 0 <= i < |slots| && slots[i].valid && slots[i].name == Some(train)
  }

  /** First index from i on that is not in use, or the number of instances. */
  function FirstFree(instances: seq<Instance>, i: nat): (k: nat)
    requires i <= |instances|
    ensures i <= k <= |instances|
    ensures forall j :: i <= j < k ==> instances[j].inUse
    ensures k < |instances| ==> !instances[k].inUse
    decreases |instances| - i
  {
    if i == |instances| || !instances[i].inUse then i else FirstFree(instances, i + 1)
  }

  /** First index of a loaded engine with that name, or the number of engine slots. */
  function EngineType(engines: seq<string>, engine: string, i: nat): (k: nat)
    requires i <= |engines|
    ensures i <= k <= |engines|
    ensures forall j :: i <= j < k ==> engines[j] != engine
    ensures k < |engines| ==> engines[k] == engine
    decreases |engines| - i
  {
    if i == |engines| || engines[i] == engine then i else EngineType(engines, engine, i + 1)
  }

  function Grab(f: Fleet, engines: seq<string>, train: string, engine: string): (Reply, Fleet)
    requires Shaped(f)
  {
    SearchFindsFree(f);
    var ids, n := Search(f), |f.slots|;
    var g := ids[|ids| - 1];
    if Held(f.slots, train) then (AlreadyGrabbed, f)
    else if f.slots[g].valid then (AllInUse, f)
    else
      var named := f.slots[g].(name := Some(train));
      var chosen := f.(next := Inc(g, n), slots := f.slots[g := named]);
      var t, i := EngineType(engines, engine, 0), FirstFree(f.instances, 0);
      if t == |engines| || i == n then (EngineNotSet, chosen)
      else
        (GrabId(g), chosen.(slots := f.slots[g := named.(valid := true, instance := i)],
                            instances := f.instances[i := Instance(false, f.instances[i].release, t, true)]))
  }

  function Release(f: Fleet, id: nat): (bool, Fleet)
    requires Shaped(f) && id < |f.slots|
  {
    if !f.slots[id].valid then (false, f)
    else
      var i := f.slots[id].instance;
      (true, f.(slots := f.slots[id := f.slots[id].(valid := false, name := None)],
                instances := if 0 <= i < |f.instances| then f.instances[i := f.instances[i].(release := false, inUse := false)]
                             else f.instances))
  }

  // ----- grab-ids and engine instances are in bijection -----

  predicate SlotsBound(f: Fleet) {
    forall i :: 0 <= i < |f.slots| && f.slots[i].valid ==>
      f.slots[i].name.Some? && 0 <= f.slots[i].instance < |f.instances| && f.instances[f.slots[i].instance].inUse
  }

  predicate SlotsDistinct(slots: seq<Slot>) {
    forall i, j :: 0 <= i < j < |slots| && slots[i].valid && slots[j].valid ==>
      slots[i].instance != slots[j].instance && slots[i].name != slots[j].name
  }

  predicate InstancesHeld(f: Fleet) {
    forall k :: 0 <= k < |f.instances| && f.instances[k].inUse ==> Holder(f, k)
  }

  /** No request to the container is pending. */
  predicate Settled(f: Fleet) {
    forall k :: 0 <= k < |f.instances| ==> !f.instances[k].grab && !f.instances[k].release
  }

  predicate Bound(f: Fleet) {
    Shaped(f) && SlotsBound(f) && SlotsDistinct(f.slots) && InstancesHeld(f) && Settled(f)
  }

  predicate Holder(f: Fleet, k: int) {
    exists i :: 0 <= i < |f.slots| && f.slots[i].valid && f.slots[i].instance == k
  }

  function UpTo(n: nat): (s: set<int>)
    ensures |s| == n
    ensures forall k :: k in s <==> 0 <= k < n
  {
    if n == 0 then {} else UpTo(n - 1) + {n - 1}
  }

  ghost predicate BoundAmong(slots: seq<Slot>, ids: set<int>, k: int) {
    exists i :: i in ids && 0 <= i < |slots| && slots[i].instance == k
  }

  /** Binding n different instances takes n ids. */
  lemma {:induction false} Pigeonhole(slots: seq<Slot>, ids: set<int>, n: nat)
    requires forall k :: 0 <= k < n ==> BoundAmong(slots, ids, k)
    ensures n <= |ids|
  {
    if n > 0 {
      assert BoundAmong(slots, ids, n - 1);
      var i :| i in ids && 0 <= i < |slots| && slots[i].instance == n - 1;
      forall k | 0 <= k < n - 1 ensures BoundAmong(slots, ids - {i}, k) {
        assert BoundAmong(slots, ids, k);
        var j :| j in ids && 0 <= j < |slots| && slots[j].instance == k;
        assert j in ids - {i};
      }
      Pigeonhole(slots, ids - {i}, n - 1);
    }
  }

  /** While some grab-id is free, so is some engine instance. */
  lemma FreeIdMeansFreeInstance(f: Fleet)
    requires Bound(f) && !AllValid(f.slots)
    ensures FirstFree(f.instances, 0) < |f.instances|
  {
    var n := |f.slots|;
    if FirstFree(f.instances, 0) == n {
      var free :| 0 <= free < n && !f.slots[free].valid;
      var ids := UpTo(n) - {free};
      forall k | 0 <= k < n ensures BoundAmong(f.slots, ids, k) {
        HolderIsBoundAmong(f, free, k);
      }
      assert |ids| == n - 1;
      Pigeonhole(f.slots, ids, n);
      assert false;
    }
  }

  lemma HolderIsBoundAmong(f: Fleet, free: int, k: int)
    requires InstancesHeld(f) && 0 <= k < |f.instances| && f.instances[k].inUse
    requires 0 <= free < |f.slots| && !f.slots[free].valid
    ensures BoundAmong(f.slots, UpTo(|f.slots|) - {free}, k)
  {
  }

  /** Nothing but the slot of id and the instance bound to it differs. */
  predicate OthersUnchanged(f: Fleet, f': Fleet, id: nat, instance: int) {
    && |f'.slots| == |f.slots| && |f'.instances| == |f.instances|
    && (forall j :: 0 <= j < |f.slots| && j != id ==> f'.slots[j] == f.slots[j])
    && (forall k :: 0 <= k < |f.instances| && k != instance ==> f'.instances[k] == f.instances[k])
  }

  /** A free id and a free instance with the engine are now bound to the train and to each other. */
  predicate Binds(f: Fleet, f': Fleet, id: nat, engines: seq<string>, train: string, engine: string) {
    && id < |f.slots| == |f'.slots| && !f.slots[id].valid
    && var slot := f'.slots[id];
       && slot.valid && slot.name == Some(train) && 0 <= slot.instance < |f.instances| == |f'.instances|
       && !f.instances[slot.instance].inUse && f'.instances[slot.instance].inUse
       && (forall k :: 0 <= k < slot.instance ==> f.instances[k].inUse)
       && !f'.instances[slot.instance].grab && !f'.instances[slot.instance].release
       && var t := f'.instances[slot.instance].engineType;
          && 0 <= t < |engines| && engines[t] == engine && (forall k :: 0 <= k < t ==> engines[k] != engine)
          && OthersUnchanged(f, f', id, slot.instance)
  }

  /** The four outcomes of a grab; in particular a grab never fails for want of an engine instance. */
  lemma GrabOutcomes(f: Fleet, engines: seq<string>, train: string, engine: string)
    requires Bound(f)
    ensures var (reply, f') := Grab(f, engines, train, engine);
            && (reply.AlreadyGrabbed? <==> Held(f.slots, train))
            && (reply.AllInUse? <==> !Held(f.slots, train) && AllValid(f.slots))
            && (reply.EngineNotSet? <==> !Held(f.slots, train) && !AllValid(f.slots) && engine !in engines)
            && (reply.GrabId? ==> Binds(f, f', reply.id, engines, train, engine))
            && (reply.AllInUse? || reply.AlreadyGrabbed? ==> f' == f)
            && (reply.EngineNotSet? ==> f'.instances == f.instances)
  {
    SearchFindsFree(f);
    if !AllValid(f.slots) {
      FreeIdMeansFreeInstance(f);
    }
  }

  /** The k-th id from `next` on is the first one not in use, and the following id comes next. */
  predicate TakesNextFree(f: Fleet, next': nat, k: nat)
    requires Shaped(f)
  {
    && k < |f.slots| && !f.slots[AtOffset(f.next, k, |f.slots|)].valid
    && (forall j :: 0 <= j < k ==> f.slots[AtOffset(f.next, j, |f.slots|)].valid)
    && next' == AtOffset(AtOffset(f.next, k, |f.slots|), 1 % |f.slots|, |f.slots|)
  }

  /** The allocator is round robin: a grab that finds an id takes the first free one in cyclic order from where the last
      one left off, and goes on behind it, also when the engine cannot be set and only the name is left in the slot. */
  lemma GrabTakesNextFree(f: Fleet, engines: seq<string>, train: string, engine: string)
    requires Bound(f)
    ensures var (reply, f') := Grab(f, engines, train, engine);
            var n := |f.slots|;
            && (reply.GrabId? ==> exists k :: TakesNextFree(f, f'.next, k) && reply.id == AtOffset(f.next, k, n))
            && (reply.EngineNotSet? ==>
                  exists k :: TakesNextFree(f, f'.next, k)
                    && var id := AtOffset(f.next, k, n); f'.slots == f.slots[id := f.slots[id].(name := Some(train))])
  {
    SearchFindsFree(f);
    var ids, n := Search(f), |f.slots|;
    if !AllValid(f.slots) {
      FreeIdMeansFreeInstance(f);
      SearchTakesNextFree(f);
    }
    var g := ids[|ids| - 1];
    hide Bound, TakesNextFree, Search, AllValid, Held;
  }

  lemma SearchTakesNextFree(f: Fleet)
    requires Shaped(f) && !AllValid(f.slots) && Search(f) != []
    ensures var ids := Search(f); var g, k := ids[|ids| - 1], |ids| - 1;
            TakesNextFree(f, Inc(g, |f.slots|), k) && g == AtOffset(f.next, k, |f.slots|)
  {
    var ids, n := Search(f), |f.slots|;
    SearchFindsFree(f);
    ProbesWalk(f.slots, f.next, n);
    hide Probes;
    forall j | 0 <= j < |ids| ensures ids[j] == AtOffset(f.next, j, n) {
      WalkOffsets(ids, f.next, n, j);
    }
    NextOffset(ids[|ids| - 1], n);
    hide AtOffset, Inc;
  }

  /** In both the offset and the successor the ids go up and around. */
  lemma OffsetIsModulo(start: nat, k: nat, n: nat)
    requires start < n && k < n
    ensures AtOffset(start, k, n) == (start + k) % n && Inc(start, n) == (start + 1) % n
  {
    Wraps(start + k, n);
    Wraps(start + 1, n);
  }

  lemma Wraps(x: nat, n: nat)
    requires x < 2 * n
    ensures x % n == if x < n then x else x - n
  {
    var q := if x < n then 0 else 1;
    assert x == q * n + (x - q * n);
  }

  lemma NextOffset(id: nat, n: nat)
    requires id < n
    ensures Inc(id, n) == AtOffset(id, 1 % n, n)
  {
  }

  /** A release frees the id and the instance bound to it, and only them. */
  lemma ReleaseOutcomes(f: Fleet, id: nat)
    requires Bound(f) && id < |f.slots|
    ensures var (ok, f') := Release(f, id);
            && ok == f.slots[id].valid && f'.next == f.next
            && (!ok ==> f' == f)
            && (ok ==> var i := f.slots[id].instance;
                       && OthersUnchanged(f, f', id, i) && !Held(f'.slots, f.slots[id].name.value)
                       && f'.slots[id] == Slot(false, None, i)
                       && f.instances[i].inUse && f'.instances[i] == f.instances[i].(inUse := false))
  {
    if f.slots[id].valid {
      assert forall j :: 0 <= j < |f.slots| && j != id && f.slots[j].valid ==> f.slots[j].name != f.slots[id].name;
    }
  }

  /** Binding a free id to a free instance, for a train not held yet. */
  lemma BindKeepsBound(f: Fleet, g: nat, i: nat, train: string, next: nat, t: nat)
    requires Bound(f) && g < |f.slots| && i < |f.instances| && next < |f.slots|
    requires !f.slots[g].valid && !f.instances[i].inUse && !Held(f.slots, train)
    ensures Bound(Fleet(f.slots[g := Slot(true, Some(train), i)], next, f.instances[i := Instance(false, false, t, true)]))
  {
    var f' := Fleet(f.slots[g := Slot(true, Some(train), i)], next, f.instances[i := Instance(false, false, t, true)]);
    assert SlotsBound(f');
    assert SlotsDistinct(f'.slots) by {
      hide InstancesHeld, Settled, SlotsBound;
      assert forall j :: 0 <= j < |f.slots| && f.slots[j].valid ==> f.slots[j].name != Some(train);
      assert forall j :: 0 <= j < |f.slots| && f.slots[j].valid ==> f.slots[j].instance != i;
    }
    hide SlotsBound, SlotsDistinct;
    forall k | 0 <= k < |f'.instances| && f'.instances[k].inUse ensures Holder(f', k) {
      if k == i {
        assert f'.slots[g].instance == k;
      } else {
        assert Holder(f, k);
        var j :| 0 <= j < |f.slots| && f.slots[j].valid && f.slots[j].instance == k;
        assert f'.slots[j] == f.slots[j];
      }
    }
  }

  /** Naming a free slot binds nothing. */
  lemma NamingKeepsBound(f: Fleet, g: nat, train: string, next: nat)
    requires Bound(f) && g < |f.slots| && !f.slots[g].valid && next < |f.slots|
    ensures Bound(f.(next := next, slots := f.slots[g := f.slots[g].(name := Some(train))]))
  {
    var f' := f.(next := next, slots := f.slots[g := f.slots[g].(name := Some(train))]);
    assert forall j :: 0 <= j < |f.slots| && f.slots[j].valid ==> f'.slots[j] == f.slots[j];
    forall k | 0 <= k < |f.instances| && f.instances[k].inUse ensures Holder(f', k) {
      assert Holder(f, k);
    }
  }

  lemma GrabKeepsBound(f: Fleet, engines: seq<string>, train: string, engine: string)
    requires Bound(f)
    ensures Bound(Grab(f, engines, train, engine).1)
  {
    SearchFindsFree(f);
    var ids := Search(f);
    var g := ids[|ids| - 1];
    hide Search, SlotsBound, SlotsDistinct, InstancesHeld;
    if !Held(f.slots, train) && !f.slots[g].valid {
      var t, i := EngineType(engines, engine, 0), FirstFree(f.instances, 0);
      if t == |engines| || i == |f.instances| {
        NamingKeepsBound(f, g, train, Inc(g, |f.slots|));
      } else {
        BindKeepsBound(f, g, i, train, Inc(g, |f.slots|), t);
      }
    }
  }

  lemma ReleaseKeepsBound(f: Fleet, id: nat)
    requires Bound(f) && id < |f.slots|
    ensures Bound(Release(f, id).1)
  {
    var (ok, f') := Release(f, id);
    if ok {
      forall k | 0 <= k < |f'.instances| && f'.instances[k].inUse ensures Holder(f', k) {
        assert Holder(f, k);
        var i :| 0 <= i < |f.slots| && f.slots[i].valid && f.slots[i].instance == k;
        assert f'.slots[i] == f.slots[i];
      }
    }
  }

  // ----- runs -----

  datatype Op = GrabOp(engines: seq<string>, train: string, engine: string) | ReleaseOp(id: nat)

  function Perform(f: Fleet, op: Op): (f': Fleet)
    requires Shaped(f)
    ensures Shaped(f') && |f'.slots| == |f.slots|
  {
    match op
    case GrabOp(engines, train, engine) => Grab(f, engines, train, engine).1
    case ReleaseOp(id) => if id < |f.slots| then Release(f, id).1 else f
  }

  function After(f: Fleet, ops: seq<Op>): (f': Fleet)
    requires Shaped(f)
    ensures Shaped(f') && |f'.slots| == |f.slots|
    decreases |ops|
  {
    if ops == [] then f else After(Perform(f, ops[0]), ops[1..])
  }

  lemma PerformKeepsBound(f: Fleet, op: Op)
    requires Bound(f)
    ensures Bound(Perform(f, op))
  {
    hide Bound, Grab, Release;
    match op
    case GrabOp(engines, train, engine) => GrabKeepsBound(f, engines, train, engine);
    case ReleaseOp(id) => if id < |f.slots| { ReleaseKeepsBound(f, id); }
  }

  lemma {:induction false} RunsStayBound(f: Fleet, ops: seq<Op>)
    requires Bound(f)
    ensures Bound(After(f, ops))
    decreases |ops|
  {
    if ops != [] {
      PerformKeepsBound(f, ops[0]);
      RunsStayBound(Perform(f, ops[0]), ops[1..]);
    }
  }

  /** The ids an operation looks at: in use, or else the one selected. */
  function Examined(f: Fleet, op: Op): seq<nat>
    requires Shaped(f)
  {
    if op.GrabOp? && !Held(f.slots, op.train) then Search(f) else []
  }

  function Trail(f: Fleet, ops: seq<Op>): seq<nat>
    requires Shaped(f)
    decreases |ops|
  {
    if ops == [] then [] else Examined(f, ops[0]) + Trail(Perform(f, ops[0]), ops[1..])
  }

  lemma ExaminedWalk(f: Fleet, op: Op)
    requires Shaped(f)
    ensures var ids := Examined(f, op);
            Cyclic(ids, f.next, |f.slots|) &&
            Perform(f, op).next == if ids == [] then f.next else Inc(ids[|ids| - 1], |f.slots|)
  {
    SearchFindsFree(f);
  }

  lemma {:induction false} TrailWalks(f: Fleet, ops: seq<Op>)
    requires Shaped(f)
    ensures Cyclic(Trail(f, ops), f.next, |f.slots|)
    decreases |ops|
  {
    if ops != [] {
      var f' := Perform(f, ops[0]);
      ExaminedWalk(f, ops[0]);
      TrailWalks(f', ops[1..]);
      JoinWalks(Examined(f, ops[0]), Trail(f', ops[1..]), f.next, |f.slots|);
    }
  }

  lemma JoinWalks(a: seq<nat>, b: seq<nat>, start: nat, n: nat)
    requires Cyclic(a, start, n) && (if a == [] then Cyclic(b, start, n) else Cyclic(b, Inc(a[|a| - 1], n), n))
    ensures Cyclic(a + b, start, n)
  {
  }

  /** Round robin: over any grabs and releases after the selection of g, whenever g is looked at again, every other id
      has been selected or found in use before. */
  lemma EveryIdGetsItsTurn(f: Fleet, ops: seq<Op>, g: nat, i: nat, x: nat)
    requires Shaped(f) && g < |f.slots| && x < |f.slots| && x != g && f.next == Inc(g, |f.slots|)
    requires i < |Trail(f, ops)| && Trail(f, ops)[i] == g
    ensures x in Trail(f, ops)[..i]
  {
    TrailWalks(f, ops);
    WalkAroundMeetsAll(Trail(f, ops), g, |f.slots|, i, x);
  }

  /** The operation is a grab that takes x, which was free; it goes on behind x. */
  predicate Takes(f: Fleet, op: Op, x: nat)
    requires Shaped(f) && op.GrabOp? && x < |f.slots|
  {
    var (reply, f') := Grab(f, op.engines, op.train, op.engine);
    && (reply == GrabId(x) || (reply == EngineNotSet && f'.slots[x].name == Some(op.train)))
    && !f.slots[x].valid && f'.next == Inc(x, |f.slots|)
  }

  lemma ExaminedMeaning(f: Fleet, op: Op, x: nat)
    requires Bound(f) && x in Examined(f, op)
    ensures x < |f.slots| && op.GrabOp? && (f.slots[x].valid || Takes(f, op, x))
  {
    SearchFindsFree(f);
    GrabOutcomes(f, op.engines, op.train, op.engine);
    var ids := Search(f);
    var i :| 0 <= i < |ids| && ids[i] == x;
    hide Search, Bound, Binds, FirstFree, EngineType;
  }

  lemma {:induction false} TrailMember(f: Fleet, ops: seq<Op>, x: nat) returns (m: nat)
    requires Bound(f) && x in Trail(f, ops)
    ensures m < |ops| && Bound(After(f, ops[..m])) && |After(f, ops[..m]).slots| == |f.slots|
    ensures x in Examined(After(f, ops[..m]), ops[m])
    decreases |ops|
  {
    TrailFirst(f, ops, x);
    PerformKeepsBound(f, ops[0]);
    hide *;
    if x in Examined(f, ops[0]) {
      m := 0;
      NothingDone(f, ops);
    } else {
      var k := TrailMember(Perform(f, ops[0]), ops[1..], x);
      m := k + 1;
      AfterFirst(f, ops, m);
    }
  }

  lemma TrailFirst(f: Fleet, ops: seq<Op>, x: nat)
    requires Bound(f) && x in Trail(f, ops)
    ensures Shaped(f) && ops != [] && (x in Examined(f, ops[0]) || x in Trail(Perform(f, ops[0]), ops[1..]))
  {
    hide Examined, Perform;
  }

  lemma NothingDone(f: Fleet, ops: seq<Op>)
    requires Shaped(f)
    ensures After(f, ops[..0]) == f
  {
  }

  lemma AfterFirst(f: Fleet, ops: seq<Op>, m: nat)
    requires Shaped(f) && 0 < m <= |ops|
    ensures After(f, ops[..m]) == After(Perform(f, ops[0]), ops[1..][..m - 1])
  {
    hide Perform;
    assert ops[..m][0] == ops[0] && ops[..m][1..] == ops[1..][..m - 1];
  }

  lemma {:induction false} TrailLast(f: Fleet, ops: seq<Op>, op: Op)
    requires Shaped(f)
    ensures Trail(f, ops + [op]) == Trail(f, ops) + Examined(After(f, ops), op)
    decreases |ops|
  {
    hide Examined, Perform;
    if ops == [] {
      assert ops + [op] == [op] && [op][1..] == [];
    } else {
      assert (ops + [op])[0] == ops[0] && (ops + [op])[1..] == ops[1..] + [op];
      TrailLast(Perform(f, ops[0]), ops[1..], op);
    }
  }

  /** No id is passed over: after the selection of g, when a later grab is given g again, every other id has been taken
      or was in use at some grab in between. */
  lemma NoIdIsPassedOver(f: Fleet, ops: seq<Op>, op: Op, g: nat, x: nat)
    requires Bound(f) && g < |f.slots| && x < |f.slots| && x != g && f.next == Inc(g, |f.slots|)
    requires op.GrabOp? && Grab(After(f, ops), op.engines, op.train, op.engine).0 == GrabId(g)
    ensures exists m :: 0 <= m <= |ops| && (ops + [op])[m].GrabOp?
              && var s := After(f, ops[..m]); s.slots[x].valid || Takes(s, (ops + [op])[m], x)
  {
    var all, end := ops + [op], After(f, ops);
    RunsStayBound(f, ops);
    LastExamined(end, op, g);
    assert Shaped(f) && Shaped(end) && |end.slots| == |f.slots|;
    hide *;
    TrailLast(f, ops, op);
    var i := |Trail(f, all)| - 1;
    EveryIdGetsItsTurn(f, all, g, i, x);
    var m := TrailMember(f, all, x);
    assert all[..m] == ops[..m];
    ExaminedMeaning(After(f, ops[..m]), all[m], x);
  }

  lemma LastExamined(f: Fleet, op: Op, g: nat)
    requires Bound(f) && op.GrabOp? && Grab(f, op.engines, op.train, op.engine).0 == GrabId(g)
    ensures var ids := Examined(f, op); ids != [] && ids[|ids| - 1] == g
  {
    SearchFindsFree(f);
    hide Probes, Bound;
  }

  // ----- the driver's own state -----

  class Driver {
    const slots: array<Slot>
    const instances: array<Instance>
    var next: nat
    /** Let periods before the container answers the pending request. */
    var lag: nat

    constructor (n: nat)
      requires n > 0
      ensures Bound(State()) && fresh(slots) && fresh(instances)
      ensures State() == Fleet(seq(n, _ => Slot(false, None, -1)), 0, seq(n, _ => Instance(false, false, -1, false)))
    {
      slots := new Slot[n](_ => Slot(false, None, -1));
      instances := new Instance[n](_ => Instance(false, false, -1, false));
      next, lag := 0, 0;
    }

    ghost function State(): Fleet
      reads this, slots, instances
    {
      Fleet(slots[..], next, instances[..])
    }

    /** One period of the container, which answers grab with in-use and release with not-in-use. */
    method LetPeriod(i: nat)
      requires i < instances.Length
      modifies this`lag, instances
      ensures instances[..] == old(instances[..]) || (old(lag) == 0 && instances[..] == Answered(old(instances[..]), i))
      ensures old(lag) > 0 ==> lag == old(lag) - 1 && instances[..] == old(instances[..])
      ensures old(lag) == 0 ==> instances[..] == Answered(old(instances[..]), i)
    {
      if lag > 0 {
        lag := lag - 1;
      } else if instances[i].release {
        instances[i] := instances[i].(inUse := false);
      } else if instances[i].grab {
        instances[i] := instances[i].(inUse := true);
      }
    }

    /** Id held for the train, or none. */
    method GetGrabId(train: string) returns (id: Option<nat>)
      ensures id.Some? <==> Held(slots[..], train)
      ensures id.Some? ==> id.value < slots.Length && slots[id.value].valid && slots[id.value].name == Some(train)
    {
      id := None;
      var i := 0;
      while i < slots.Length
        invariant i <= slots.Length
        invariant forall k :: 0 <= k < i ==> !(slots[k].valid && slots[k].name == Some(train))
      {
        if slots[i].valid && slots[i].name == Some(train) {
          assert slots[..][i] == slots[i];
          return Some(i);
        }
        i := i + 1;
      }
    }

    method SetTrainEngineInstance(id: nat, engines: seq<string>, engine: string) returns (error: bool)
      requires id < slots.Length && Settled(State())
      modifies this`lag, slots, instances
      ensures var t, i := EngineType(engines, engine, 0), FirstFree(old(instances[..]), 0);
              && error == (t == |engines| || i == instances.Length)
              && slots[..] == (if error then old(slots[..]) else old(slots[..])[id := old(slots[id]).(instance := i)])
              && instances[..] == (if error then old(instances[..]) else old(instances[..])[i := Instance(false, false, t, true)])
    {
      var t := 0;
      while t < |engines| && engines[t] != engine
        invariant t <= |engines| && EngineType(engines, engine, t) == EngineType(engines, engine, 0)
      {
        t := t + 1;
      }
      if t == |engines| {
        return true;
      }
      var i := 0;
      while i < instances.Length && instances[i].inUse
        invariant i <= instances.Length && FirstFree(instances[..], i) == FirstFree(instances[..], 0)
      {
        i := i + 1;
      }
      if i == instances.Length {
        return true;
      }
      ghost var was := instances[..];
      instances[i] := instances[i].(grab := true, engineType := t);
      ghost var asked := instances[..];
      assert asked[i].grab && !asked[i].release && asked[i].engineType == t;
      lag := *;
      LetPeriod(i);
      while !instances[i].inUse
        invariant slots[..] == old(slots[..])
        invariant instances[..] == asked || instances[..] == Answered(asked, i)
        decreases !instances[i].inUse, lag
      {
        LetPeriod(i);
      }
      instances[i] := instances[i].(grab := false);
      slots[id] := slots[id].(instance := i);
      error := false;
    }

    /** The next grab-id not in use, in cyclic order. */
    method TakeGrabId() returns (id: Option<nat>)
      requires Shaped(State())
      modifies this`next
      ensures var was := old(State()); var g := LastProbe(was.slots, was.next, |was.slots|);
              if was.slots[g].valid then id == None && next == was.next
              else id == Some(g) && next == Inc(g, |was.slots|)
    {
      var start := next;
      ghost var n, s := slots.Length, slots[..];
      SearchBegins(s, start);
      hide *;
      if slots[next].valid {
        next := Inc(next, slots.Length);
        ghost var k := 1;
        while slots[next].valid
          invariant Searching(s, start, k, next) && next < n && k <= n
          decreases n - k
        {
          SearchGoesOn(s, start, k, next);
          if next == start {
            return None;
          }
          next := Inc(next, slots.Length);
          k := k + 1;
        }
        SearchEnds(s, start, k, next);
      }
      id := Some(next);
      next := Inc(next, slots.Length);
    }

    method GrabTrain(engines: seq<string>, train: string, engine: string) returns (reply: Reply)
      requires Bound(State())
      modifies this, slots, instances
      ensures Bound(State())
      ensures (reply, State()) == Grab(old(State()), engines, train, engine)
    {
      ghost var before := State();
      GrabKeepsBound(before, engines, train, engine);
      assert before.slots == slots[..] && before.instances == instances[..];
      hide SlotsBound, SlotsDistinct, InstancesHeld;
      var held := GetGrabId(train);
      if held.Some? {
        return AlreadyGrabbed;
      }
      var id := TakeGrabId();
      if id == None {
        return AllInUse;
      }
      var g := id.value;
      slots[g] := slots[g].(name := Some(train));
      var error := SetTrainEngineInstance(g, engines, engine);
      ghost var after := Grab(before, engines, train, engine).1;
      if error {
        assert slots[..] == after.slots;
        return EngineNotSet;
      }
      slots[g] := slots[g].(valid := true);
      reply := GrabId(g);
      assert slots[..] == after.slots;
    }

    method FreeTrainEngineInstance(i: nat)
      requires i < instances.Length && Settled(State())
      modifies this`lag, instances
      ensures instances[..] == old(instances[..])[i := old(instances[i]).(inUse := false)]
    {
      ghost var was := instances[..];
      instances[i] := instances[i].(release := true);
      ghost var asked := instances[..];
      lag := *;
      LetPeriod(i);
      while instances[i].inUse
        invariant slots[..] == old(slots[..])
        invariant instances[..] == asked || instances[..] == Answered(asked, i)
        decreases instances[i].inUse, lag
      {
        LetPeriod(i);
      }
      instances[i] := instances[i].(release := false);
    }

    method ReleaseTrain(id: nat) returns (success: bool)
      requires Bound(State()) && id < slots.Length
      modifies this`lag, slots, instances
      ensures Bound(State())
      ensures (success, State()) == Release(old(State()), id)
    {
      ghost var before := State();
      ReleaseKeepsBound(before, id);
      success := false;
      if slots[id].valid {
        slots[id] := slots[id].(valid := false);
        FreeTrainEngineInstance(slots[id].instance);
        slots[id] := slots[id].(name := None);
        success := true;
        assert slots[..] == before.slots[id := before.slots[id].(valid := false, name := None)];
        assert instances[..] == Release(before, id).1.instances;
      }
    }
  }

  function Answered(instances: seq<Instance>, i: nat): seq<Instance>
    requires i < |instances|
  {
    var e := instances[i];
    instances[i := if e.release then e.(inUse := false) else if e.grab then e.(inUse := true) else e]
  }
}
