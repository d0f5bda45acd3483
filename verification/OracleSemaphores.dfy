/** The registry of per-origin request semaphores, shared by all oracle clients of the process.

    Every step below is one atomic action of one request; requests interleave freely. The lookup runs under the registry
    lock, but strong references are dropped outside it, so a semaphore may die between any two steps of a lookup. */
module OracleSemaphores {
  import opened Common

  const ORACLE_REQUEST_CONCURRENCY_LIMIT: nat := 8

  type Request = nat
  type Origin = string
  type Semaphore = nat

  /** Where a request is in `with_request_permit`. */
  datatype Phase =
    | Idle
    | Scanning(origin: Origin, todo: set<Origin>)      // holds the lock; entries still to be retained or removed
    | Missed(origin: Origin)                           // holds the lock; found no live semaphore
    | Created(origin: Origin, semaphore: Semaphore)    // holds the lock and a new semaphore, not yet registered
    | Waiting(origin: Origin, semaphore: Semaphore)    // waits for a permit
    | InFlight(origin: Origin, semaphore: Semaphore)   // holds a permit
    | Leaving(origin: Origin, semaphore: Semaphore)    // has returned its permit
  {
    predicate HoldsLock() { Scanning? || Missed? || Created? }

    predicate HasSemaphore() { Created? || Waiting? || InFlight? || Leaving? }

    predicate Holds(s: Semaphore) { HasSemaphore() && semaphore == s }

    predicate Uses(s: Semaphore) { InFlight? && semaphore == s }
  }

  /** `registry` holds weak references; `strong` and `permits` are the counters inside the semaphores ever allocated,
      `origins` records what each of them was made for. */
  datatype State = State(registry: map<Origin, Semaphore>, strong: map<Semaphore, nat>, permits: map<Semaphore, nat>,
                         origins: map<Semaphore, Origin>, lock: Option<Request>, phases: map<Request, Phase>)
  {
    function PhaseOf(r: Request): Phase { if r in phases then phases[r] else Idle }

    predicate Live(s: Semaphore) { s in strong && strong[s] > 0 }
  }

  datatype Action =
    | BeginLookup(origin: Origin)
    | RetainEntry(entry: Origin)
    | Upgrade
    | Create(semaphore: Semaphore)
    | Register
    | Acquire
    | ReturnPermit
    | DropReference

  ghost predicate Initial(s: State) { s == State(map[], map[], map[], map[], None, map[]) }

  /** Request `r` takes `action`. A request may drop its reference while it still waits: its future was cancelled. */
  ghost predicate Next(s: State, r: Request, action: Action, s': State) {
    match (action, s.PhaseOf(r))
    case (BeginLookup(origin), Idle) =>
      s.lock.None? && s' == s.(lock := Some(r), phases := s.phases[r := Scanning(origin, s.registry.Keys)])
    case (RetainEntry(entry), Scanning(origin, todo)) =>
      && entry in todo
      && s' == s.(registry := if entry in s.registry && !s.Live(s.registry[entry]) then s.registry - {entry}
                              else s.registry,
                  phases := s.phases[r := Scanning(origin, todo - {entry})])
    case (Upgrade, Scanning(origin, todo)) =>
      && todo == {}
      && (if origin in s.registry && s.Live(s.registry[origin]) then
            var sem := s.registry[origin];
            s' == s.(strong := s.strong[sem := s.strong[sem] + 1], lock := None,
                     phases := s.phases[r := Waiting(origin, sem)])
          else s' == s.(phases := s.phases[r := Missed(origin)]))
    case (Create(sem), Missed(origin)) =>
      && sem !in s.strong
      && s' == s.(strong := s.strong[sem := 1], permits := s.permits[sem := ORACLE_REQUEST_CONCURRENCY_LIMIT],
                  origins := s.origins[sem := origin], phases := s.phases[r := Created(origin, sem)])
    case (Register, Created(origin, sem)) =>
      s' == s.(registry := s.registry[origin := sem], lock := None, phases := s.phases[r := Waiting(origin, sem)])
    case (Acquire, Waiting(origin, sem)) =>
      && sem in s.permits && s.permits[sem] > 0
      && s' == s.(permits := s.permits[sem := s.permits[sem] - 1], phases := s.phases[r := InFlight(origin, sem)])
    case (ReturnPermit, InFlight(origin, sem)) =>
      && sem in s.permits
      && s' == s.(permits := s.permits[sem := s.permits[sem] + 1], phases := s.phases[r := Leaving(origin, sem)])
    case (DropReference, Waiting(_, sem)) => Dropped(s, r, sem, s')
    case (DropReference, Leaving(_, sem)) => Dropped(s, r, sem, s')
    case _ => false
  }

  ghost predicate Dropped(s: State, r: Request, sem: Semaphore, s': State) {
    && s.Live(sem)
    && s' == s.(strong := s.strong[sem := s.strong[sem] - 1], phases := s.phases[r := Idle])
  }

  ghost predicate Run(states: seq<State>) {
    && |states| > 0 && Initial(states[0])
    && forall i :: 0 <= i < |states| - 1 ==> Steps(states[i], states[i + 1])
  }

  ghost predicate Steps(s: State, s': State) { exists r: Request, action: Action :: Next(s, r, action, s') }

  // ----- invariant

  ghost function Holders(phases: map<Request, Phase>, sem: Semaphore): set<Request> {
    set r | r in phases && phases[r].Holds(sem)
  }

  ghost function Users(phases: map<Request, Phase>, sem: Semaphore): set<Request> {
    set r | r in phases && phases[r].Uses(sem)
  }

  /** The lock is held by exactly the request that is inside a lookup. */
  ghost predicate LockInv(s: State) {
    forall r: Request :: s.PhaseOf(r).HoldsLock() <==> s.lock == Some(r)
  }

  /** The counters of a semaphore are right: its strong references are the requests that hold it, and the permits that
      are out are held by its users. */
  ghost predicate CountInv(s: State) {
    && s.permits.Keys == s.strong.Keys == s.origins.Keys
    && (forall sem: Semaphore :: sem in s.strong ==> s.strong[sem] == |Holders(s.phases, sem)|)
    && (forall sem: Semaphore :: sem in s.strong ==>
         s.permits[sem] + |Users(s.phases, sem)| == ORACLE_REQUEST_CONCURRENCY_LIMIT)
  }

  /** Semaphores are used for the origin they were made for. */
  ghost predicate OriginInv(s: State) {
    && (forall r: Request :: s.PhaseOf(r).HasSemaphore() ==>
         s.PhaseOf(r).semaphore in s.origins && s.origins[s.PhaseOf(r).semaphore] == s.PhaseOf(r).origin)
    && (forall o :: o in s.registry ==> s.registry[o] in s.origins && s.origins[s.registry[o]] == o)
  }

  ghost predicate Registered(s: State, sem: Semaphore) {
    sem in s.origins && s.origins[sem] in s.registry && s.registry[s.origins[sem]] == sem
  }

  /** The request that holds the lock has made this semaphore and is about to register it. */
  ghost predicate BeingRegistered(s: State, sem: Semaphore) {
    s.lock.Some? && s.PhaseOf(s.lock.value).Created? && s.PhaseOf(s.lock.value).semaphore == sem
  }

  /** Every live semaphore is registered or about to be. */
  ghost predicate RegistryInv(s: State) {
    forall sem: Semaphore :: s.Live(sem) ==> Registered(s, sem) || BeingRegistered(s, sem)
  }

  /** While a lookup that has missed goes on, no live semaphore is registered for its origin. */
  ghost predicate MissInv(s: State) {
    s.lock.Some? ==>
      var p := s.PhaseOf(s.lock.value);
      (p.Missed? || p.Created?) && p.origin in s.registry ==> !s.Live(s.registry[p.origin])
  }

  ghost predicate Inv(s: State)
  {
    LockInv(s) && CountInv(s) && OriginInv(s) && RegistryInv(s) && MissInv(s)
  }

  lemma {:induction false} SwapOne(before: set<Request>, r: Request, stays: bool, after: set<Request>)
    requires forall q: Request :: q in after <==> if q == r then stays else q in before
    ensures |after| + (if r in before then 1 else 0) == |before| + (if stays then 1 else 0)
  {
    assert after == before - {r} + (if stays then {r} else {});
    assert |before - {r}| == |before| - (if r in before then 1 else 0);
    assert r !in before - {r};
  }

  /** What changing one request's phase does to the number of holders of a semaphore. */
  lemma {:induction false} HoldersUpdate(phases: map<Request, Phase>, r: Request, p: Phase, sem: Semaphore)
    ensures var q := if r in phases then phases[r] else Idle;
      |Holders(phases[r := p], sem)| + (if q.Holds(sem) then 1 else 0) ==
      |Holders(phases, sem)| + (if p.Holds(sem) then 1 else 0)
  {
    var before, after := Holders(phases, sem), Holders(phases[r := p], sem);
    assert r in before <==> r in phases && phases[r].Holds(sem);
    forall q: Request ensures q in after <==> if q == r then p.Holds(sem) else q in before {
    }
    SwapOne(before, r, p.Holds(sem), after);
  }

  lemma {:induction false} UsersUpdate(phases: map<Request, Phase>, r: Request, p: Phase, sem: Semaphore)
    ensures var q := if r in phases then phases[r] else Idle;
      |Users(phases[r := p], sem)| + (if q.Uses(sem) then 1 else 0) ==
      |Users(phases, sem)| + (if p.Uses(sem) then 1 else 0)
  {
    var before, after := Users(phases, sem), Users(phases[r := p], sem);
    assert r in before <==> r in phases && phases[r].Uses(sem);
    forall q: Request ensures q in after <==> if q == r then p.Uses(sem) else q in before {
    }
    SwapOne(before, r, p.Uses(sem), after);
  }

  lemma {:induction false} KeysEffect(s: State, r: Request, action: Action, s': State)
    requires Next(s, r, action, s') && s.strong.Keys == s.permits.Keys == s.origins.Keys
    ensures r in s'.phases && s'.phases == s.phases[r := s'.phases[r]]
    ensures s'.strong.Keys == s'.permits.Keys == s'.origins.Keys
  {
  }

  /** A step moves the counters of a semaphore as it moves its request into and out of the semaphore. */
  lemma {:induction false} CounterEffect(s: State, r: Request, action: Action, s': State, sem: Semaphore)
    requires Next(s, r, action, s') && s.strong.Keys == s.permits.Keys == s.origins.Keys
    requires r in s'.phases && s'.strong.Keys == s'.permits.Keys
    ensures var p, q := s.PhaseOf(r), s'.phases[r];
      if sem in s.strong then
        && sem in s'.strong
        && s'.strong[sem] + (if p.Holds(sem) then 1 else 0) == s.strong[sem] + (if q.Holds(sem) then 1 else 0)
        && s'.permits[sem] + (if q.Uses(sem) then 1 else 0) == s.permits[sem] + (if p.Uses(sem) then 1 else 0)
      else if sem in s'.strong then
        s'.strong[sem] == 1 && s'.permits[sem] == ORACLE_REQUEST_CONCURRENCY_LIMIT && q.Holds(sem) && !q.Uses(sem)
      else true
  {
  }

  /** A step changes the phase of the request that takes it and of no other. */
  lemma {:induction false} OnlyMoves(s: State, r: Request, action: Action, s': State)
    requires Next(s, r, action, s')
    ensures forall q: Request :: q != r ==> s'.PhaseOf(q) == s.PhaseOf(q)
  {
  }

  lemma {:induction false} NobodyHolds(s: State, sem: Semaphore)
    requires Inv(s) && sem !in s.strong
    ensures Holders(s.phases, sem) == {} && Users(s.phases, sem) == {}
  {
    forall r | r in s.phases ensures !s.phases[r].Holds(sem) {
      assert s.PhaseOf(r) == s.phases[r];
    }
  }

  /** Whoever holds a semaphore keeps it alive. */
  lemma {:induction false} HeldIsLive(s: State, r: Request, sem: Semaphore)
    requires Inv(s) && s.PhaseOf(r).Holds(sem)
    ensures s.Live(sem)
  {
    assert r in Holders(s.phases, sem);
  }

  lemma {:induction false} CountStep(s: State, r: Request, action: Action, s': State)
    requires Inv(s) && Next(s, r, action, s')
    ensures CountInv(s')
  {
    KeysEffect(s, r, action, s');
    forall sem | sem in s'.strong
      ensures s'.strong[sem] == |Holders(s'.phases, sem)|
      ensures sem in s'.permits && s'.permits[sem] + |Users(s'.phases, sem)| == ORACLE_REQUEST_CONCURRENCY_LIMIT
    {
      CounterEffect(s, r, action, s', sem);
      HoldersUpdate(s.phases, r, s'.phases[r], sem);
      UsersUpdate(s.phases, r, s'.phases[r], sem);
      if sem !in s.strong {
        NobodyHolds(s, sem);
      }
    }
  }

  lemma {:induction false} LockStep(s: State, r: Request, action: Action, s': State)
    requires LockInv(s) && Next(s, r, action, s')
    ensures LockInv(s')
  {
    OnlyMoves(s, r, action, s');
    assert s.PhaseOf(r).HoldsLock() <==> s.lock == Some(r);
  }

  lemma {:induction false} MoverOrigin(s: State, r: Request, action: Action, s': State)
    requires Inv(s) && Next(s, r, action, s')
    ensures forall sem :: sem in s.origins ==> sem in s'.origins && s'.origins[sem] == s.origins[sem]
    ensures s'.PhaseOf(r).HasSemaphore() ==>
      s'.PhaseOf(r).semaphore in s'.origins && s'.origins[s'.PhaseOf(r).semaphore] == s'.PhaseOf(r).origin
  {
  }

  lemma {:induction false} RegistryOrigins(s: State, r: Request, action: Action, s': State)
    requires Inv(s) && Next(s, r, action, s')
    ensures forall o :: o in s'.registry ==> s'.registry[o] in s'.origins && s'.origins[s'.registry[o]] == o
  {
    MoverOrigin(s, r, action, s');
  }

  lemma {:induction false} BecomesLive(s: State, r: Request, action: Action, s': State, sem: Semaphore)
    requires Next(s, r, action, s') && s'.Live(sem)
    ensures s.Live(sem) || action == Create(sem)
  {
  }

  lemma {:induction false} OriginStep(s: State, r: Request, action: Action, s': State)
    requires Inv(s) && Next(s, r, action, s')
    ensures OriginInv(s')
  {
    OnlyMoves(s, r, action, s');
    MoverOrigin(s, r, action, s');
    RegistryOrigins(s, r, action, s');
  }

  lemma {:induction false} RegistryStep(s: State, r: Request, action: Action, s': State)
    requires Inv(s) && Next(s, r, action, s')
    ensures RegistryInv(s')
  {
    OnlyMoves(s, r, action, s');
    assert s.PhaseOf(r).HoldsLock() <==> s.lock == Some(r);
    forall sem: Semaphore | s'.Live(sem) ensures Registered(s', sem) || BeingRegistered(s', sem) {
      BecomesLive(s, r, action, s', sem);
    }
  }

  lemma {:induction false} MissStep(s: State, r: Request, action: Action, s': State)
    requires Inv(s) && Next(s, r, action, s')
    ensures MissInv(s')
  {
    OnlyMoves(s, r, action, s');
    assert s.PhaseOf(r).HoldsLock() <==> s.lock == Some(r);
  }

  lemma {:induction false} InvHolds(states: seq<State>, i: nat)
    requires Run(states) && i < |states|
    ensures Inv(states[i])
  {
    if i > 0 {
      InvHolds(states, i - 1);
      assert Steps(states[i - 1], states[i - 1 + 1]);
      var r: Request, action: Action :| Next(states[i - 1], r, action, states[i]);
      CountStep(states[i - 1], r, action, states[i]);
      LockStep(states[i - 1], r, action, states[i]);
      OriginStep(states[i - 1], r, action, states[i]);
      RegistryStep(states[i - 1], r, action, states[i]);
      MissStep(states[i - 1], r, action, states[i]);
    }
  }

  // ----- main results

  lemma {:induction false} LiveIsUnique(s: State, a: Semaphore, b: Semaphore)
    requires Inv(s) && s.Live(a) && s.Live(b) && s.origins[a] == s.origins[b]
    ensures a == b
  {
  }

  /** In every reachable state of any interleaving, each origin has at most one live semaphore. */
  lemma {:induction false} OneSemaphorePerOrigin(states: seq<State>, i: nat, a: Semaphore, b: Semaphore)
    requires Run(states) && i < |states|
    requires states[i].Live(a) && states[i].Live(b)
    ensures a in states[i].origins && b in states[i].origins
    ensures states[i].origins[a] == states[i].origins[b] ==> a == b
  {
    InvHolds(states, i);
    if states[i].origins[a] == states[i].origins[b] {
      LiveIsUnique(states[i], a, b);
    }
  }

  /** The requests in flight to one origin. */
  ghost function InFlightTo(s: State, origin: Origin): set<Request> {
    set r | r in s.phases && s.phases[r].InFlight? && s.phases[r].origin == origin
  }

  /** In every reachable state, at most eight requests are in flight to any one origin. */
  lemma {:induction false} AtMostEightInFlight(states: seq<State>, i: nat, origin: Origin)
    requires Run(states) && i < |states|
    ensures |InFlightTo(states[i], origin)| <= 8
  {
    InvHolds(states, i);
    var s := states[i];
    var inFlight := InFlightTo(s, origin);
    if inFlight != {} {
      var r :| r in inFlight;
      var sem := s.phases[r].semaphore;
      forall q | q in inFlight ensures q in Users(s.phases, sem) {
        SameOriginSameSemaphore(s, r, q);
      }
      SameOriginSameSemaphore(s, r, r);
      SubsetIsSmaller(inFlight, Users(s.phases, sem));
    }
  }

  lemma {:induction false} SameOriginSameSemaphore(s: State, r: Request, q: Request)
    requires Inv(s) && r in s.phases && q in s.phases && s.phases[r].InFlight? && s.phases[q].InFlight?
    requires s.phases[r].origin == s.phases[q].origin
    ensures s.phases[r].semaphore == s.phases[q].semaphore
    ensures s.phases[r].semaphore in s.strong
  {
    var a, b := s.phases[r].semaphore, s.phases[q].semaphore;
    assert s.PhaseOf(r).Holds(a) && s.PhaseOf(q).Holds(b);
    HeldIsLive(s, r, a);
    HeldIsLive(s, q, b);
    LiveIsUnique(s, a, b);
  }

  /** All requests to an origin that hold a semaphore hold the same one, wherever in their course they are. */
  lemma {:induction false} SharedSemaphore(states: seq<State>, i: nat, r: Request, q: Request)
    requires Run(states) && i < |states|
    requires states[i].PhaseOf(r).HasSemaphore() && states[i].PhaseOf(q).HasSemaphore()
    requires states[i].PhaseOf(r).origin == states[i].PhaseOf(q).origin
    ensures states[i].PhaseOf(r).semaphore == states[i].PhaseOf(q).semaphore
  {
    InvHolds(states, i);
    var s := states[i];
    HeldIsLive(s, r, s.PhaseOf(r).semaphore);
    HeldIsLive(s, q, s.PhaseOf(q).semaphore);
    LiveIsUnique(s, s.PhaseOf(r).semaphore, s.PhaseOf(q).semaphore);
  }

  lemma {:induction false} InFlightAreUsers(s: State, r: Request, sem: Semaphore)
    requires Inv(s) && s.PhaseOf(r).Holds(sem)
    ensures InFlightTo(s, s.PhaseOf(r).origin) == Users(s.phases, sem)
  {
    HeldIsLive(s, r, sem);
    forall q | q in InFlightTo(s, s.PhaseOf(r).origin) ensures q in Users(s.phases, sem) {
      assert s.PhaseOf(q).Holds(s.phases[q].semaphore);
      HeldIsLive(s, q, s.phases[q].semaphore);
      LiveIsUnique(s, s.phases[q].semaphore, sem);
    }
    forall q | q in Users(s.phases, sem) ensures q in InFlightTo(s, s.PhaseOf(r).origin) {
      assert s.PhaseOf(q).HasSemaphore() && s.PhaseOf(q).semaphore == sem;
    }
  }

  ghost predicate Can(s: State, r: Request, action: Action) { exists s' :: Next(s, r, action, s') }

  /** A waiting request may go exactly while fewer than eight requests are in flight to its origin. */
  lemma {:induction false} AcquireExactly(states: seq<State>, i: nat, r: Request)
    requires Run(states) && i < |states| && states[i].PhaseOf(r).Waiting?
    ensures Can(states[i], r, Acquire) <==> |InFlightTo(states[i], states[i].PhaseOf(r).origin)| < 8
  {
    InvHolds(states, i);
    var s := states[i];
    var origin, sem := s.PhaseOf(r).origin, s.PhaseOf(r).semaphore;
    InFlightAreUsers(s, r, sem);
    assert sem in s.origins;
    if s.permits[sem] > 0 {
      assert Next(s, r, Acquire,
        s.(permits := s.permits[sem := s.permits[sem] - 1], phases := s.phases[r := InFlight(origin, sem)]));
    }
  }

  /** A request in flight can always return its permit, and then, or while it waits, drop its reference; nothing that
      the others do can block it. */
  lemma {:induction false} LeavingIsFree(states: seq<State>, i: nat, r: Request)
    requires Run(states) && i < |states|
    ensures states[i].PhaseOf(r).InFlight? ==> Can(states[i], r, ReturnPermit)
    ensures states[i].PhaseOf(r).Leaving? || states[i].PhaseOf(r).Waiting? ==> Can(states[i], r, DropReference)
  {
    InvHolds(states, i);
    var s := states[i];
    var p := s.PhaseOf(r);
    if p.InFlight? {
      assert p.semaphore in s.origins;
      assert Next(s, r, ReturnPermit, s.(permits := s.permits[p.semaphore := s.permits[p.semaphore] + 1],
                                         phases := s.phases[r := Leaving(p.origin, p.semaphore)]));
    } else if p.Leaving? || p.Waiting? {
      HeldIsLive(s, r, p.semaphore);
      assert Next(s, r, DropReference, s.(strong := s.strong[p.semaphore := s.strong[p.semaphore] - 1],
                                          phases := s.phases[r := Idle]));
    }
  }

  /** A lookup can begin exactly when no other one is under way. */
  lemma {:induction false} BeginExactly(s: State, r: Request, origin: Origin)
    requires s.PhaseOf(r).Idle?
    ensures Can(s, r, BeginLookup(origin)) <==> s.lock.None?
  {
    if s.lock.None? {
      assert Next(s, r, BeginLookup(origin),
        s.(lock := Some(r), phases := s.phases[r := Scanning(origin, s.registry.Keys)]));
    }
  }

  /** A lookup removes an entry exactly if it finds its semaphore dead, and leaves the others alone. */
  lemma {:induction false} ScanDropsDead(s: State, r: Request, entry: Origin, s': State)
    requires Next(s, r, RetainEntry(entry), s')
    ensures entry in s'.registry <==> entry in s.registry && s.Live(s.registry[entry])
    ensures forall o :: o in s'.registry ==> o in s.registry && s'.registry[o] == s.registry[o]
    ensures forall o :: o in s.registry && o != entry ==> o in s'.registry
  {
  }

  /** A lookup scans all entries there are when it begins, and looks for a live semaphore only after that. */
  lemma {:induction false} ScanIsComplete(s: State, r: Request, action: Action, s': State)
    requires Next(s, r, action, s')
    ensures action.BeginLookup? ==> s'.PhaseOf(r) == Scanning(action.origin, s.registry.Keys)
    ensures action.RetainEntry? ==>
      s.PhaseOf(r).Scanning? && s'.PhaseOf(r) == Scanning(s.PhaseOf(r).origin, s.PhaseOf(r).todo - {action.entry})
    ensures action.Upgrade? ==> s.PhaseOf(r).Scanning? && s.PhaseOf(r).todo == {}
  {
  }

  /** How many more steps a lookup takes at most. */
  ghost function StepsLeft(p: Phase): nat {
    match p
    case Scanning(_, todo) => |todo| + 3
    case Missed(_) => 2
    case Created(_, _) => 1
    case _ => 0
  }

  /** Every step of a lookup brings it closer to its end, where it waits on a semaphore of its own origin. */
  lemma {:induction false} LookupEnds(s: State, r: Request, action: Action, s': State)
    requires LockInv(s) && s.PhaseOf(r).HoldsLock() && Next(s, r, action, s')
    ensures StepsLeft(s'.PhaseOf(r)) < StepsLeft(s.PhaseOf(r))
    ensures s'.PhaseOf(r).HoldsLock() || s'.PhaseOf(r).Waiting?
    ensures s'.PhaseOf(r).origin == s.PhaseOf(r).origin
  {
  }

  lemma {:induction false} SubsetIsSmaller<T>(a: set<T>, b: set<T>)
    requires a <= b
    ensures |a| <= |b|
  {
    assert b == a + (b - a);
  }

  /** When no request is under way, nothing is left behind: every semaphore has all its permits back and is dead. */
  lemma {:induction false} NothingLeaks(states: seq<State>, i: nat, sem: Semaphore)
    requires Run(states) && i < |states| && sem in states[i].strong
    requires forall r :: states[i].PhaseOf(r).Idle?
    ensures states[i].strong[sem] == 0
    ensures sem in states[i].permits && states[i].permits[sem] == 8
  {
    InvHolds(states, i);
    var s := states[i];
    forall r | r in s.phases ensures s.phases[r].Idle? {
      assert s.PhaseOf(r).Idle?;
    }
    assert Holders(s.phases, sem) == {} && Users(s.phases, sem) == {};
  }

  /** The lock is never stuck: its holder can always take another step of its lookup. */
  lemma {:induction false} LookupCanContinue(states: seq<State>, i: nat, r: Request)
    requires Run(states) && i < |states| && states[i].lock == Some(r)
    ensures exists action, s' :: Next(states[i], r, action, s')
  {
    InvHolds(states, i);
    var s := states[i];
    assert s.PhaseOf(r).HoldsLock();
    match s.PhaseOf(r)
    case Scanning(origin, todo) =>
      if todo != {} {
        var entry :| entry in todo;
        assert Next(s, r, RetainEntry(entry),
          s.(registry := if entry in s.registry && !s.Live(s.registry[entry]) then s.registry - {entry} else s.registry,
             phases := s.phases[r := Scanning(origin, todo - {entry})]));
      } else if origin in s.registry && s.Live(s.registry[origin]) {
        var sem := s.registry[origin];
        assert Next(s, r, Upgrade, s.(strong := s.strong[sem := s.strong[sem] + 1], lock := None,
                                      phases := s.phases[r := Waiting(origin, sem)]));
      } else {
        assert Next(s, r, Upgrade, s.(phases := s.phases[r := Missed(origin)]));
      }
    case Missed(origin) =>
      var sem := UpperBound(s.strong.Keys);
      assert Next(s, r, Create(sem),
        s.(strong := s.strong[sem := 1], permits := s.permits[sem := ORACLE_REQUEST_CONCURRENCY_LIMIT],
           origins := s.origins[sem := origin], phases := s.phases[r := Created(origin, sem)]));
    case Created(origin, sem) =>
      assert Next(s, r, Register, s.(registry := s.registry[origin := sem], lock := None,
                                     phases := s.phases[r := Waiting(origin, sem)]));
  }

  lemma {:induction false} UpperBound(used: set<Semaphore>) returns (bound: nat)
    ensures forall s :: s in used ==> s < bound
    decreases |used|
  {
    bound := 0;
    if used != {} {
      var s :| s in used;
      var rest := UpperBound(used - {s});
      bound := if rest > s then rest else s + 1;
      forall t | t in used ensures t < bound {
        assert t == s || t in used - {s};
      }
    }
  }
}
