/** The game client's mutex: a queue of promises, each request waiting for the one before it. */
module PromiseMutex {
  import opened Wrappers

  datatype Promise = Pending | Resolved | Rejected

  /** A caller of `lock`: waiting for the grant, holding it, done with it, or thrown out by a rejected promise. */
  datatype Client = Waiting | Holding | Done | Thrown

  /** Requests are numbered in the order of their `lock` calls; `prior` is the last one queued at that moment. */
  datatype Request = Request(promise: Promise, prior: Option<nat>, client: Client)

  datatype State = State(queue: seq<nat>, requests: seq<Request>)

  const START := State([], [])

  /** The synchronous part of `lock`. */
  function Lock(s: State): State {
    var prior := if s.queue == [] then None else Some(s.queue[|s.queue| - 1]);
    State(s.queue + [|s.requests|], s.requests + [Request(Pending, prior, Waiting)])
  }

  predicate Settled(s: State, prior: Option<nat>) {
    prior.Some? ==> prior.value < |s.requests| && s.requests[prior.value].promise != Pending
  }

  /** `lock` goes on after its `await`. */
  function Resume(s: State, r: nat): State
    requires r < |s.requests| && Settled(s, s.requests[r].prior)
  {
    var request := s.requests[r];
    var thrown := request.prior.Some? && s.requests[request.prior.value].promise == Rejected;
    s.(requests := s.requests[r := request.(client := if thrown then Thrown else Holding)])
  }

  /** A settled promise stays as it is. */
  function Settle(p: Promise, outcome: Promise): Promise {
    if p == Pending then outcome else p
  }

  /** A client that calls `unlock` while it holds the lock is done; one that still waits goes on after its `await`. */
  function Unlocked(c: Client): Client {
    if c == Holding then Done else c
  }

  function Unlock(s: State, r: nat): State
    requires r < |s.requests|
  {
    var first := s.queue != [] && s.queue[0] == r;
    var request := s.requests[r];
    State(if first then s.queue[1..] else s.queue,
          s.requests[r := request.(promise := Settle(request.promise, if first then Resolved else Rejected),
                                   client := Unlocked(request.client))])
  }

  class Mutex {
    var queue: seq<nat>
    var requests: seq<Request>

    ghost function Contents(): State
      reads this
    {
      State(queue, requests)
    }

    constructor ()
      ensures Contents() == START
    {
      queue, requests := [], [];
    }

    method LockCall() returns (r: nat)
      modifies this
      ensures Contents() == Lock(old(Contents())) && r == |old(requests)|
    {
      var prior := if queue == [] then None else Some(queue[|queue| - 1]);
      r := |requests|;
      requests := requests + [Request(Pending, prior, Waiting)];
      queue := queue + [r];
    }

    method ResumeCall(r: nat)
      requires r < |requests| && Settled(Contents(), requests[r].prior)
      modifies this`requests
      ensures Contents() == Resume(old(Contents()), r)
    {
      var prior := requests[r].prior;
      if prior.Some? && requests[prior.value].promise == Rejected {
        requests := requests[r := requests[r].(client := Thrown)];
      } else {
        requests := requests[r := requests[r].(client := Holding)];
      }
    }

    method UnlockCall(r: nat)
      requires r < |requests|
      modifies this
      ensures Contents() == Unlock(old(Contents()), r)
    {
      var index := 0;
      while index < |queue| && queue[index] != r
        invariant index <= |queue| && forall k :: 0 <= k < index ==> queue[k] != r
      {
        index := index + 1;
      }
      var outcome := Rejected;
      if index == 0 && queue != [] {
        outcome := Resolved;
        queue := queue[1..];
      }
      requests := requests[r := requests[r].(promise := Settle(requests[r].promise, outcome),
                                             client := Unlocked(requests[r].client))];
    }
  }

  // ----- runs -----

  datatype Step = LockStep | ResumeStep(r: nat) | UnlockStep(r: nat)

  /** A client unlocks only after it was granted the lock, but possibly more than once. */
  predicate Enabled(s: State, step: Step) {
    match step
    case LockStep => true
    case ResumeStep(r) => r < |s.requests| && s.requests[r].client == Waiting && Settled(s, s.requests[r].prior)
    case UnlockStep(r) => r < |s.requests| && s.requests[r].client in {Holding, Done}
  }

  function Apply(s: State, step: Step): State
    requires Enabled(s, step)
  {
    match step
    case LockStep => Lock(s)
    case ResumeStep(r) => Resume(s, r)
    case UnlockStep(r) => Unlock(s, r)
  }

  predicate IsRun(s: State, steps: seq<Step>)
    decreases |steps|
  {
    steps == [] || (Enabled(s, steps[0]) && IsRun(Apply(s, steps[0]), steps[1..]))
  }

  function After(s: State, steps: seq<Step>): State
    requires IsRun(s, steps)
    decreases |steps|
  {
    if steps == [] then s else After(Apply(s, steps[0]), steps[1..])
  }

  /** Number of requests that have left the queue. */
  function Served(s: State): int {
    |s.requests| - |s.queue|
  }

  /** The queue holds the latest requests in order of their calls. */
  predicate InOrder(s: State) {
    0 <= Served(s) && forall i :: 0 <= i < |s.queue| ==> s.queue[i] == Served(s) + i
  }

  predicate RequestValid(s: State, r: nat)
    requires r < |s.requests|
  {
    var q := s.requests[r];
    && (r < Served(s) ==> q.promise == Resolved && q.client == Done)
    && (r >= Served(s) ==> q.promise == Pending && q.client in {Waiting, Holding})
    && (r > Served(s) ==> q.client == Waiting && q.prior == Some(r - 1))
    && (q.prior.Some? ==> r > 0 && q.prior == Some(r - 1))
  }

  predicate Valid(s: State) {
    InOrder(s) && forall r :: 0 <= r < |s.requests| ==> RequestValid(s, r)
  }

  lemma LockKeepsValid(s: State)
    requires Valid(s)
    ensures Valid(Lock(s)) && Served(Lock(s)) == Served(s)
  {
    var s', n := Lock(s), |s.requests|;
    assert s.queue != [] ==> s.queue[|s.queue| - 1] == n - 1;
    forall r | 0 <= r < |s'.requests| ensures RequestValid(s', r) {
      if r < n {
        assert RequestValid(s, r);
      }
    }
  }

  /** Of the waiting requests only the head has a prior that is settled, and it was resolved. */
  lemma OnlyTheHeadResumes(s: State, r: nat)
    requires Valid(s) && Enabled(s, ResumeStep(r))
    ensures r == Served(s) && (s.requests[r].prior.Some? ==> s.requests[s.requests[r].prior.value].promise == Resolved)
  {
    assert RequestValid(s, r);
    if r > 0 {
      assert RequestValid(s, r - 1);
    }
  }

  lemma ResumeKeepsValid(s: State, r: nat)
    requires Valid(s) && Enabled(s, ResumeStep(r))
    ensures Valid(Resume(s, r)) && Served(Resume(s, r)) == Served(s)
  {
    OnlyTheHeadResumes(s, r);
    var s' := Resume(s, r);
    forall k | 0 <= k < |s'.requests| ensures RequestValid(s', k) {
      assert RequestValid(s, k);
    }
  }

  lemma UnlockKeepsValid(s: State, r: nat)
    requires Valid(s) && Enabled(s, UnlockStep(r))
    ensures Valid(Unlock(s, r)) && Served(Unlock(s, r)) == Served(s) + if s.requests[r].client == Holding then 1 else 0
  {
    assert RequestValid(s, r);
    var s' := Unlock(s, r);
    forall k | 0 <= k < |s'.requests| ensures RequestValid(s', k) {
      assert RequestValid(s, k);
    }
  }

  lemma StepKeepsValid(s: State, step: Step)
    requires Valid(s) && Enabled(s, step)
    ensures Valid(Apply(s, step)) && Served(Apply(s, step)) >= Served(s)
  {
    match step
    case LockStep => LockKeepsValid(s);
    case ResumeStep(r) => ResumeKeepsValid(s, r);
    case UnlockStep(r) => UnlockKeepsValid(s, r);
  }

  lemma {:induction false} RunsStayValid(s: State, steps: seq<Step>)
    requires Valid(s) && IsRun(s, steps)
    ensures Valid(After(s, steps))
    decreases |steps|
  {
    if steps != [] {
      StepKeepsValid(s, steps[0]);
      RunsStayValid(Apply(s, steps[0]), steps[1..]);
    }
  }

  predicate Holds(s: State, r: nat) {
    r < |s.requests| && s.requests[r].client == Holding
  }

  /** At most one client holds the lock; it is the head of the queue; every earlier caller is done and every later
      one still waits; nobody is thrown out. */
  predicate Exclusive(s: State) {
    forall r, q :: 0 <= r < |s.requests| && 0 <= q < |s.requests| && s.requests[r].client == Holding ==>
      s.queue != [] && s.queue[0] == r
      && s.requests[q].client == if q < r then Done else if q == r then Holding else Waiting
  }

  lemma ValidIsExclusive(s: State)
    requires Valid(s)
    ensures Exclusive(s) && forall r :: 0 <= r < |s.requests| ==> s.requests[r].client != Thrown
  {
    HeadIsServed(s);
    forall r | 0 <= r < |s.requests|
      ensures s.requests[r].client != Thrown
      ensures r < Served(s) ==> s.requests[r].client == Done
      ensures r > Served(s) ==> s.requests[r].client == Waiting
      ensures r == Served(s) ==> s.requests[r].client != Done
    {
      assert RequestValid(s, r);
    }
  }

  lemma HeadIsServed(s: State)
    requires InOrder(s)
    ensures s.queue != [] ==> s.queue[0] == Served(s) < |s.requests|
    ensures 0 <= Served(s) <= |s.requests| && (Served(s) < |s.requests| ==> s.queue != [])
  {
  }

  /** A head that waits can go on at once: no grant is lost. */
  lemma HeadCanGoOn(s: State)
    requires Valid(s) && s.queue != []
    ensures Holds(s, s.queue[0]) || Enabled(s, ResumeStep(s.queue[0]))
  {
    var r := s.queue[0];
    HeadIsServed(s);
    assert RequestValid(s, r);
    if r > 0 {
      assert RequestValid(s, r - 1);
    }
  }

  /** In every run the lock is exclusive, no client is thrown out, and the first in the queue holds the lock or can
      take it. */
  lemma MutualExclusionInOrder(steps: seq<Step>)
    requires IsRun(START, steps)
    ensures var s := After(START, steps);
            && Exclusive(s)
            && (forall r :: 0 <= r < |s.requests| ==> s.requests[r].client != Thrown)
            && (s.queue != [] ==> Holds(s, s.queue[0]) || Enabled(s, ResumeStep(s.queue[0])))
  {
    RunsStayValid(START, steps);
    var s := After(START, steps);
    ValidIsExclusive(s);
    if s.queue != [] {
      HeadCanGoOn(s);
    }
  }

  /** Only the head of the queue is ever granted, and a further unlock by a former holder changes nothing. */
  lemma OnlyTheHeadGoesOn(steps: seq<Step>, r: nat)
    requires IsRun(START, steps)
    ensures var s := After(START, steps);
            && (Enabled(s, ResumeStep(r)) ==> s.queue != [] && s.queue[0] == r)
            && (Enabled(s, UnlockStep(r)) && !Holds(s, r) ==> Apply(s, UnlockStep(r)) == s)
  {
    RunsStayValid(START, steps);
    var s := After(START, steps);
    if r < |s.requests| {
      assert RequestValid(s, r);
      if Enabled(s, ResumeStep(r)) {
        OnlyTheHeadResumes(s, r);
      }
    }
  }

  // ----- clients that unlock before they are granted -----

  /** The discipline is needed: an unlock keeps the queue in order exactly when the client has been granted. */
  lemma UnlockKeepsValidIff(s: State, r: nat)
    requires Valid(s) && r < |s.requests|
    ensures Valid(Unlock(s, r)) <==> s.requests[r].client in {Holding, Done}
  {
    assert RequestValid(s, r);
    if s.requests[r].client in {Holding, Done} {
      UnlockKeepsValid(s, r);
    } else {
      HeadIsServed(s);
      assert !RequestValid(Unlock(s, r), r);
    }
  }

  /** An unlock by a client waiting behind the head rejects its promise, so the next client is thrown out. */
  lemma EarlyUnlockThrowsTheNext(s: State, r: nat)
    requires Valid(s) && Served(s) < r && r + 1 < |s.requests|
    ensures var s' := Unlock(s, r);
            && s'.queue == s.queue
            && Settled(s', s'.requests[r + 1].prior)
            && Resume(s', r + 1).requests[r + 1].client == Thrown
  {
    assert RequestValid(s, r) && RequestValid(s, r + 1);
  }

  /** An unlock by a head that still waits lets the next client in beside it: both go on, and two hold the lock. */
  lemma EarlyUnlockOfTheHeadLetsTwoIn(s: State, r: nat)
    requires Valid(s) && s.queue != [] && s.queue[0] == r && s.requests[r].client == Waiting && r + 1 < |s.requests|
    ensures var s1 := Unlock(s, r);
            && Enabled(s1, ResumeStep(r))
            && var s2 := Apply(s1, ResumeStep(r));
               && Enabled(s2, ResumeStep(r + 1))
               && var s3 := Apply(s2, ResumeStep(r + 1)); Holds(s3, r) && Holds(s3, r + 1)
  {
    HeadIsServed(s);
    assert RequestValid(s, r) && RequestValid(s, r + 1);
    if r > 0 {
      assert RequestValid(s, r - 1);
    }
  }

  /** It takes two clients that ask and a first one that unlocks at once. */
  lemma TwoHoldersExample()
    ensures var s := Unlock(Lock(Lock(START)), 0);
            && Enabled(s, ResumeStep(0)) && Enabled(Apply(s, ResumeStep(0)), ResumeStep(1))
            && var t := Apply(Apply(s, ResumeStep(0)), ResumeStep(1)); Holds(t, 0) && Holds(t, 1)
  {
    LockKeepsValid(START);
    LockKeepsValid(Lock(START));
    EarlyUnlockOfTheHeadLetsTwoIn(Lock(Lock(START)), 0);
  }
}
