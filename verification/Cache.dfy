/**
 The in-memory TTL cache (go/lib/cache/cache.go) under the keyed wrappers that create its entries on
 demand (go/internal/server/metricscache.go, refdatacache.go), as a concurrent protocol.

 Any number of threads run Get, Invalidate and InvalidateAll. A step is one atomic action of one
 thread: a map lookup under the outer mutex, a lock or unlock of an entry, one atomic load or store
 of an entry's pointer, one reading of the clock, or one end of the refresher. The database behind
 the cache is a counter of committed versions; a refresher that starts at version `low` may return
 any version committed by the time it finishes. The unkeyed caches are the case of a single key.
 */
module Cache {
  import opened Prelude

  type Key = int
  type Thread = nat

  /** The creation time of an empty entry, in nanoseconds since 1970. */
  const EPOCH := 519850800000 * 1000000

  /** What an entry's pointer refers to; `version` is `None` for the zero value of an empty entry. */
  datatype Cell = Cell(version: Option<nat>, time: int)

  const EMPTY_CELL := Cell(None, EPOCH)

  predicate StillValid(creation: int, ttl: int, now: int)
  {
    now < creation + ttl
  }

  datatype Entry = Entry(cell: Cell, owner: Option<Thread>)

  datatype Source = FromCache(storedAt: int, checkedAt: int) | FromRefresh

  datatype Pc =
    | Idle
      // Get
    | GetCalled(key: Key)
    | GetReady(key: Key)
    | GetLoaded(key: Key, cell: Cell)
    | GetWaiting(key: Key)
    | GetLocked(key: Key)
    | GetReloaded(key: Key, cell: Cell)
    | ServedLocked(key: Key, cell: Cell, checkedAt: int)
    | MustRefresh(key: Key)
    | Refreshing(key: Key, low: nat)
    | Refreshed(key: Key, version: nat)
    | Stamped(key: Key, version: nat, at: int)
    | Stored(key: Key, version: nat)
    | RefreshFailed(key: Key)
    | Returning(key: Key, value: Option<nat>, source: Source)
      // Invalidate; `floor` is the version committed when the call was made
    | InvCalled(key: Key, floor: nat)
    | InvWaiting(key: Key, floor: nat)
    | InvLocked(key: Key, floor: nat)
    | InvStored(key: Key, floor: nat)
    | InvFinished(key: Key, floor: nat)
      // InvalidateAll; `todo` are the entries its loop has still to visit
    | AllCalled(floor: nat)
    | AllHolding(floor: nat, todo: set<Key>)
    | AllLocked(floor: nat, todo: set<Key>, key: Key)
    | AllStored(floor: nat, todo: set<Key>, key: Key)
    | AllFinished(floor: nat)

  datatype State = State(
    ttl: int, clock: int, db: nat, entries: map<Key, Entry>, outer: Option<Thread>, pcs: map<Thread, Pc>)

  datatype Choice =
    | CallGet(key: Key)
    | CallInvalidate(key: Key)
    | CallInvalidateAll
    | Proceed
    | RefreshReturns(version: nat)
    | RefreshErrs
    | Visit(key: Key)

  datatype Action = Tick(elapsed: nat) | Commit | Act(thread: Thread, choice: Choice)

  function PcOf(s: State, t: Thread): Pc
  {
    if t in s.pcs then s.pcs[t] else Idle
  }

  /** What a step does to the shared state. */
  datatype Effect =
    | Nothing
    | Create(key: Key)
    | Acquire(key: Key)
    | Release(key: Key)
    | Write(key: Key, cell: Cell)
    | TakeOuter
    | DropOuter

  datatype Plan = Plan(effect: Effect, next: Pc)

  predicate LockFree(s: State, k: Key)
  {
    k in s.entries && s.entries[k].owner.None?
  }

  function Go(next: Pc): Option<Plan> { Some(Plan(Nothing, next)) }

  function Do(effect: Effect, next: Pc): Option<Plan> { Some(Plan(effect, next)) }

  function When(ready: bool, plan: Option<Plan>): Option<Plan> { if ready then plan else None }

  /** The next action of a thread at `pc`; `None` when it has to wait, or `c` is not its choice to make. */
  function Next(s: State, pc: Pc, c: Choice): Option<Plan>
  {
    match pc
    case Idle => (
      match c
      case CallGet(k) => Go(GetCalled(k))
      case CallInvalidate(k) => Go(InvCalled(k, s.db))
      case CallInvalidateAll => Go(AllCalled(s.db))
      case _ => None
    )
    case GetCalled(k) => When(s.outer.None?, if k in s.entries then Go(GetReady(k)) else Do(Create(k), GetReady(k)))
    case GetReady(k) => if k in s.entries then Go(GetLoaded(k, s.entries[k].cell)) else None
    case GetLoaded(k, cell) =>
      if StillValid(cell.time, s.ttl, s.clock) then Go(Returning(k, cell.version, FromCache(cell.time, s.clock)))
      else Go(GetWaiting(k))
    case GetWaiting(k) => When(LockFree(s, k), Do(Acquire(k), GetLocked(k)))
    case GetLocked(k) => if k in s.entries then Go(GetReloaded(k, s.entries[k].cell)) else None
    case GetReloaded(k, cell) =>
      if StillValid(cell.time, s.ttl, s.clock) then Go(ServedLocked(k, cell, s.clock)) else Go(MustRefresh(k))
    case ServedLocked(k, cell, at) => Do(Release(k), Returning(k, cell.version, FromCache(cell.time, at)))
    case MustRefresh(k) => Go(Refreshing(k, s.db))
    case Refreshing(k, low) => (
      match c
      case RefreshReturns(v) => When(low <= v <= s.db, Go(Refreshed(k, v)))
      case RefreshErrs => Go(RefreshFailed(k))
      case _ => None
    )
    case Refreshed(k, v) => Go(Stamped(k, v, s.clock))
    case Stamped(k, v, at) => Do(Write(k, Cell(Some(v), at)), Stored(k, v))
    case Stored(k, v) => Do(Release(k), Returning(k, Some(v), FromRefresh))
    case RefreshFailed(k) => Do(Release(k), Idle)
    case Returning(_, _, _) => Go(Idle)
    case InvCalled(k, w) => When(s.outer.None?, Go(if k in s.entries then InvWaiting(k, w) else InvFinished(k, w)))
    case InvWaiting(k, w) => When(LockFree(s, k), Do(Acquire(k), InvLocked(k, w)))
    case InvLocked(k, w) => Do(Write(k, EMPTY_CELL), InvStored(k, w))
    case InvStored(k, w) => Do(Release(k), InvFinished(k, w))
    case InvFinished(_, _) => Go(Idle)
    case AllCalled(w) => When(s.outer.None?, Do(TakeOuter, AllHolding(w, s.entries.Keys)))
    case AllHolding(w, todo) =>
      if todo == {} then Do(DropOuter, AllFinished(w))
      else if c.Visit? then
        When(c.key in todo && LockFree(s, c.key), Do(Acquire(c.key), AllLocked(w, todo - {c.key}, c.key)))
      else None
    case AllLocked(w, todo, k) => Do(Write(k, EMPTY_CELL), AllStored(w, todo, k))
    case AllStored(w, todo, k) => Do(Release(k), AllHolding(w, todo))
    case AllFinished(_) => Go(Idle)
  }

  function Perform(s: State, t: Thread, e: Effect): State
  {
    match e
    case Nothing => s
    case Create(k) => s.(entries := s.entries[k := Entry(EMPTY_CELL, None)])
    case Acquire(k) => if k in s.entries then s.(entries := s.entries[k := s.entries[k].(owner := Some(t))]) else s
    case Release(k) => if k in s.entries then s.(entries := s.entries[k := s.entries[k].(owner := None)]) else s
    case Write(k, cell) => if k in s.entries then s.(entries := s.entries[k := s.entries[k].(cell := cell)]) else s
    case TakeOuter => s.(outer := Some(t))
    case DropOuter => s.(outer := None)
  }

  function ThreadStep(s: State, t: Thread, c: Choice): Option<State>
  {
    var plan := Next(s, PcOf(s, t), c);
    if plan.None? then None
    else Some(Perform(s, t, plan.value.effect).(pcs := s.pcs[t := plan.value.next]))
  }

  function Step(s: State, a: Action): Option<State>
  {
    match a
    case Tick(d) => Some(s.(clock := s.clock + d))
    case Commit => Some(s.(db := s.db + 1))
    case Act(t, c) => ThreadStep(s, t, c)
  }

  function Start(ttl: int, clock: int): State
  {
    State(ttl, clock, 0, map[], None, map[])
  }

  ghost predicate Behaviour(b: seq<State>, acts: seq<Action>)
  {
    && |b| == |acts| + 1
    && forall i :: 0 <= i < |acts| ==> Step(b[i], acts[i]) == Some(b[i + 1])
  }

  // Who holds what.

  /** The entry whose write lock a thread holds. */
  function LockHeld(pc: Pc): Option<Key>
  {
    match pc
    case GetLocked(k) => Some(k)
    case GetReloaded(k, _) => Some(k)
    case ServedLocked(k, _, _) => Some(k)
    case MustRefresh(k) => Some(k)
    case Refreshing(k, _) => Some(k)
    case Refreshed(k, _) => Some(k)
    case Stamped(k, _, _) => Some(k)
    case Stored(k, _) => Some(k)
    case RefreshFailed(k) => Some(k)
    case InvLocked(k, _) => Some(k)
    case InvStored(k, _) => Some(k)
    case AllLocked(_, _, k) => Some(k)
    case AllStored(_, _, k) => Some(k)
    case _ => None
  }

  ghost predicate LocksOk(s: State)
  {
    && (forall t: Thread, k: Key :: LockHeld(PcOf(s, t)) == Some(k) ==> k in s.entries && s.entries[k].owner == Some(t))
    && (forall k :: k in s.entries && s.entries[k].owner.Some? ==>
                      LockHeld(PcOf(s, s.entries[k].owner.value)) == Some(k))
  }

  // Freshness.

  predicate CellAtLeast(c: Cell, w: nat)
  {
    c.version.Some? ==> c.version.value >= w
  }

  /** What a thread may still store for `k` is at least version `w`. */
  predicate WriterAtLeast(pc: Pc, k: Key, w: nat)
  {
    match pc
    case Refreshing(j, low) => j == k ==> low >= w
    case Refreshed(j, v) => j == k ==> v >= w
    case Stamped(j, v, _) => j == k ==> v >= w
    case _ => true
  }

  /** Nothing older than version `w` is, or can any more get, into the entry for `k`. */
  ghost predicate FreshFrom(s: State, k: Key, w: nat)
  {
    && w <= s.db
    && (k in s.entries ==> CellAtLeast(s.entries[k].cell, w))
    && (forall t: Thread :: WriterAtLeast(PcOf(s, t), k, w))
  }

  /** What a Get of `k` has in hand is at least version `w`. */
  predicate ReaderAtLeast(pc: Pc, k: Key, w: nat)
  {
    match pc
    case GetLoaded(j, c) => j == k ==> CellAtLeast(c, w)
    case GetReloaded(j, c) => j == k ==> CellAtLeast(c, w)
    case ServedLocked(j, c, _) => j == k ==> CellAtLeast(c, w)
    case Stored(j, v) => j == k ==> v >= w
    case Returning(j, v, _) => j == k ==> v.Some? ==> v.value >= w
    case _ => true
  }

  /** How a thread's own plan treats the locks. */
  lemma PlanLocks(s: State, pc: Pc, c: Choice)
    requires Next(s, pc, c).Some?
    ensures var p := Next(s, pc, c).value;
            match p.effect
            case Acquire(k) => LockHeld(pc) == None && LockHeld(p.next) == Some(k) && LockFree(s, k)
            case Release(k) => LockHeld(pc) == Some(k) && LockHeld(p.next) == None
            case Write(k, _) => LockHeld(pc) == Some(k) == LockHeld(p.next)
            case Create(k) => LockHeld(pc) == None == LockHeld(p.next) && k !in s.entries
            case _ => LockHeld(pc) == LockHeld(p.next)
  {
  }

  lemma StepKeepsLocks(s: State, a: Action, s': State)
    requires LocksOk(s) && Step(s, a) == Some(s')
    ensures LocksOk(s')
  {
    if a.Act? {
      PlanLocks(s, PcOf(s, a.thread), a.choice);
    }
    forall t: Thread, k: Key | LockHeld(PcOf(s', t)) == Some(k)
      ensures k in s'.entries && s'.entries[k].owner == Some(t)
    {
      var own := a.Act? && a.thread == t;
      assert !own ==> LockHeld(PcOf(s, t)) == Some(k);
      assert own && LockHeld(PcOf(s, t)) == Some(k) ==> s.entries[k].owner == Some(t);
    }
  }

  /** What a thread's own plan can put into an entry, or hand to its caller. */
  lemma PlanFresh(s: State, pc: Pc, c: Choice, k: Key, w: nat)
    requires Next(s, pc, c).Some? && WriterAtLeast(pc, k, w) && w <= s.db
    ensures var p := Next(s, pc, c).value;
            && WriterAtLeast(p.next, k, w)
            && (p.effect.Write? && p.effect.key == k ==> CellAtLeast(p.effect.cell, w))
            && (ReaderAtLeast(pc, k, w) && (k in s.entries ==> CellAtLeast(s.entries[k].cell, w)) ==>
                  ReaderAtLeast(p.next, k, w))
  {
  }

  lemma FreshStaysFresh(s: State, a: Action, s': State, k: Key, w: nat)
    requires LocksOk(s) && Step(s, a) == Some(s') && FreshFrom(s, k, w)
    ensures FreshFrom(s', k, w)
    ensures forall u: Thread :: ReaderAtLeast(PcOf(s, u), k, w) ==> ReaderAtLeast(PcOf(s', u), k, w)
  {
    if a.Act? {
      assert WriterAtLeast(PcOf(s, a.thread), k, w);
      PlanFresh(s, PcOf(s, a.thread), a.choice, k, w);
    }
    forall u: Thread ensures WriterAtLeast(PcOf(s', u), k, w) {
      assert WriterAtLeast(PcOf(s, u), k, w);
    }
  }

  // What an invalidation has achieved at each of its points.

  ghost predicate EmptyAt(s: State, k: Key)
  {
    k in s.entries && s.entries[k].cell == EMPTY_CELL
  }

  ghost predicate FreshOutside(s: State, todo: set<Key>, w: nat)
  {
    w <= s.db && forall k: Key :: k !in todo ==> FreshFrom(s, k, w)
  }

  ghost predicate Promise(s: State, pc: Pc)
  {
    match pc
    case InvCalled(_, w) => w <= s.db
    case InvWaiting(_, w) => w <= s.db
    case InvLocked(_, w) => w <= s.db
    case InvStored(k, w) => w <= s.db && EmptyAt(s, k)
    case InvFinished(k, w) => FreshFrom(s, k, w)
    case AllCalled(w) => w <= s.db
    case AllHolding(w, todo) => FreshOutside(s, todo, w)
    case AllLocked(w, todo, k) => FreshOutside(s, todo + {k}, w)
    case AllStored(w, todo, k) => FreshOutside(s, todo + {k}, w) && EmptyAt(s, k)
    case AllFinished(w) => FreshOutside(s, {}, w)
    case _ => true
  }

  /** Holding the lock of an emptied entry shuts every writer of that entry out. */
  lemma EmptiedIsFresh(s: State, t: Thread, k: Key, w: nat)
    requires LocksOk(s) && LockHeld(PcOf(s, t)) == Some(k) && EmptyAt(s, k) && w <= s.db
    requires PcOf(s, t).InvStored? || PcOf(s, t).AllStored?
    ensures FreshFrom(s, k, w)
  {
    forall u: Thread ensures WriterAtLeast(PcOf(s, u), k, w) {
      assert !WriterAtLeast(PcOf(s, u), k, w) ==> LockHeld(PcOf(s, u)) == Some(k);
    }
  }

  lemma UncreatedIsFresh(s: State, k: Key, w: nat)
    requires LocksOk(s) && k !in s.entries && w <= s.db
    ensures FreshFrom(s, k, w)
  {
    forall u: Thread ensures WriterAtLeast(PcOf(s, u), k, w) {
      assert !WriterAtLeast(PcOf(s, u), k, w) ==> LockHeld(PcOf(s, u)) == Some(k);
    }
  }

  /** Only the lock's holder can change an entry's cell. */
  lemma LockedCellIsStable(s: State, a: Action, s': State, u: Thread, k: Key)
    requires LocksOk(s) && Step(s, a) == Some(s')
    requires LockHeld(PcOf(s, u)) == Some(k) && !(a.Act? && a.thread == u)
    ensures k in s.entries && k in s'.entries && s'.entries[k].cell == s.entries[k].cell
  {
    if a.Act? {
      PlanLocks(s, PcOf(s, a.thread), a.choice);
    }
  }

  lemma FreshOutsideStays(s: State, a: Action, s': State, todo: set<Key>, w: nat)
    requires LocksOk(s) && Step(s, a) == Some(s') && FreshOutside(s, todo, w)
    ensures FreshOutside(s', todo, w)
  {
    forall k: Key | k !in todo ensures FreshFrom(s', k, w) {
      FreshStaysFresh(s, a, s', k, w);
    }
  }

  /** A promise is kept by whatever the other threads, the clock and the database do. */
  lemma PromiseStays(s: State, a: Action, s': State, u: Thread)
    requires LocksOk(s) && Step(s, a) == Some(s')
    requires Promise(s, PcOf(s, u)) && !(a.Act? && a.thread == u)
    ensures Promise(s', PcOf(s', u))
  {
    assert PcOf(s', u) == PcOf(s, u);
    match PcOf(s, u) {
      case InvStored(k, _) => LockedCellIsStable(s, a, s', u, k);
      case InvFinished(k, w) => FreshStaysFresh(s, a, s', k, w);
      case AllHolding(w, todo) => FreshOutsideStays(s, a, s', todo, w);
      case AllLocked(w, todo, k) => FreshOutsideStays(s, a, s', todo + {k}, w);
      case AllStored(w, todo, k) =>
        FreshOutsideStays(s, a, s', todo + {k}, w);
        LockedCellIsStable(s, a, s', u, k);
      case AllFinished(w) => FreshOutsideStays(s, a, s', {}, w);
      case _ =>
    }
  }

  /** A thread's own step turns its old promise into its new one. */
  lemma PromiseMade(s: State, t: Thread, c: Choice, s': State)
    requires LocksOk(s) && ThreadStep(s, t, c) == Some(s') && Promise(s, PcOf(s, t))
    ensures Promise(s', PcOf(s', t))
  {
    var a := Act(t, c);
    match PcOf(s, t) {
      case InvCalled(k, w) =>
        if k !in s.entries {
          UncreatedIsFresh(s, k, w);
          FreshStaysFresh(s, a, s', k, w);
        }
      case InvStored(k, w) =>
        EmptiedIsFresh(s, t, k, w);
        FreshStaysFresh(s, a, s', k, w);
      case AllCalled(w) =>
        forall k: Key | k !in s.entries.Keys ensures FreshFrom(s, k, w) {
          UncreatedIsFresh(s, k, w);
        }
        FreshOutsideStays(s, a, s', s.entries.Keys, w);
      case AllHolding(w, todo) =>
        FreshOutsideStays(s, a, s', todo, w);
        if todo != {} {
          assert todo - {c.key} + {c.key} == todo;
        }
      case AllLocked(w, todo, k) =>
        FreshOutsideStays(s, a, s', todo + {k}, w);
      case AllStored(w, todo, k) =>
        EmptiedIsFresh(s, t, k, w);
        assert FreshOutside(s, todo, w);
        FreshOutsideStays(s, a, s', todo, w);
      case _ =>
    }
  }

  ghost predicate PromisesOk(s: State)
  {
    LocksOk(s) && forall t: Thread :: Promise(s, PcOf(s, t))
  }

  lemma StepKeepsPromises(s: State, a: Action, s': State)
    requires PromisesOk(s) && Step(s, a) == Some(s')
    ensures PromisesOk(s')
  {
    StepKeepsLocks(s, a, s');
    forall t: Thread ensures Promise(s', PcOf(s', t)) {
      assert Promise(s, PcOf(s, t));
      if a.Act? && a.thread == t {
        PromiseMade(s, t, a.choice, s');
      } else {
        PromiseStays(s, a, s', t);
      }
    }
  }

  // Time.

  /** Only the zero value of an empty entry carries the epoch as its time. */
  predicate CellShape(c: Cell)
  {
    c.version.None? ==> c == EMPTY_CELL
  }

  ghost predicate Expired(s: State, k: Key, now: int)
  {
    k in s.entries && now >= s.entries[k].cell.time + s.ttl
  }

  ghost predicate Timely(s: State, pc: Pc)
  {
    match pc
    case GetLoaded(_, c) => CellShape(c)
    case GetReloaded(k, c) => CellShape(c) && k in s.entries && s.entries[k].cell == c
    case ServedLocked(_, c, at) => c.version.Some? && at < c.time + s.ttl
    case MustRefresh(k) => Expired(s, k, s.clock)
    case Refreshing(k, _) => Expired(s, k, s.clock)
    case Refreshed(k, _) => Expired(s, k, s.clock)
    case Stamped(k, _, at) => Expired(s, k, at)
    case Returning(_, v, FromCache(stored, checked)) => v.Some? && checked < stored + s.ttl
    case Returning(_, v, FromRefresh) => v.Some?
    case _ => true
  }

  /** The clock is past the epoch by a lifetime, as it is in any process started after 1986. */
  ghost predicate TimesOk(s: State)
  {
    && s.clock >= EPOCH + s.ttl
    && (forall k :: k in s.entries ==> CellShape(s.entries[k].cell))
    && (forall t: Thread :: Timely(s, PcOf(s, t)))
  }

  lemma TimelyMade(s: State, t: Thread, c: Choice, s': State)
    requires LocksOk(s) && TimesOk(s) && ThreadStep(s, t, c) == Some(s')
    ensures Timely(s', PcOf(s', t))
  {
    assert Timely(s, PcOf(s, t));
    assert LockHeld(PcOf(s, t)).Some? ==> LockHeld(PcOf(s, t)).value in s.entries;
  }

  lemma TimelyStays(s: State, a: Action, s': State, u: Thread)
    requires LocksOk(s) && TimesOk(s) && Step(s, a) == Some(s') && !(a.Act? && a.thread == u)
    ensures Timely(s', PcOf(s', u))
  {
    assert Timely(s, PcOf(s, u)) && PcOf(s', u) == PcOf(s, u);
    if LockHeld(PcOf(s, u)).Some? {
      LockedCellIsStable(s, a, s', u, LockHeld(PcOf(s, u)).value);
    }
  }

  /** The outer mutex belongs to the thread that is walking the map, if there is one. */
  ghost predicate OuterOk(s: State)
  {
    forall t: Thread :: HoldsOuter(PcOf(s, t)) ==> s.outer == Some(t)
  }

  predicate HoldsOuter(pc: Pc)
  {
    pc.AllHolding? || pc.AllLocked? || pc.AllStored?
  }

  lemma StepKeepsOuter(s: State, a: Action, s': State)
    requires OuterOk(s) && Step(s, a) == Some(s')
    ensures OuterOk(s')
  {
    if a.Act? {
      PlanOuter(s, PcOf(s, a.thread), a.choice);
    }
    forall t: Thread | HoldsOuter(PcOf(s', t)) ensures s'.outer == Some(t) {
      var own := a.Act? && a.thread == t;
      assert !own ==> HoldsOuter(PcOf(s, t));
      assert own && HoldsOuter(PcOf(s, t)) ==> s.outer == Some(t);
      assert a.Act? && HoldsOuter(PcOf(s, a.thread)) ==> s.outer == Some(a.thread);
    }
  }

  lemma PlanOuter(s: State, pc: Pc, c: Choice)
    requires Next(s, pc, c).Some?
    ensures var p := Next(s, pc, c).value;
            match p.effect
            case TakeOuter => !HoldsOuter(pc) && HoldsOuter(p.next) && s.outer == None
            case DropOuter => HoldsOuter(pc) && !HoldsOuter(p.next)
            case Create(_) => s.outer == None && !HoldsOuter(p.next)
            case _ => HoldsOuter(pc) == HoldsOuter(p.next)
  {
  }

  /** While InvalidateAll walks the map of entries, nobody adds an entry to it. */
  lemma EntriesFixedDuringWalk(s: State, a: Action, s': State, t: Thread)
    requires Inv(s) && Step(s, a) == Some(s') && HoldsOuter(PcOf(s, t))
    ensures s'.entries.Keys == s.entries.Keys
  {
    if a.Act? {
      PlanOuter(s, PcOf(s, a.thread), a.choice);
    }
  }

  ghost predicate Inv(s: State)
  {
    PromisesOk(s) && TimesOk(s) && OuterOk(s)
  }

  lemma StepKeepsInv(s: State, a: Action, s': State)
    requires Inv(s) && Step(s, a) == Some(s')
    ensures Inv(s')
  {
    StepKeepsPromises(s, a, s');
    StepKeepsOuter(s, a, s');
    StepKeepsTimes(s, a, s');
  }

  lemma StepKeepsTimes(s: State, a: Action, s': State)
    requires LocksOk(s) && TimesOk(s) && Step(s, a) == Some(s')
    ensures TimesOk(s')
  {
    forall t: Thread ensures Timely(s', PcOf(s', t)) {
      if a.Act? && a.thread == t {
        TimelyMade(s, t, a.choice, s');
      } else {
        TimelyStays(s, a, s', t);
      }
    }
  }

  lemma {:induction false} BehaviourKeepsInv(b: seq<State>, acts: seq<Action>, i: nat)
    requires Behaviour(b, acts) && Inv(b[0]) && i < |b|
    ensures Inv(b[i])
  {
    if i > 0 {
      BehaviourKeepsInv(b, acts, i - 1);
      assert Step(b[i - 1], acts[i - 1]) == Some(b[i]);
      StepKeepsInv(b[i - 1], acts[i - 1], b[i]);
    }
  }

  lemma StartInv(ttl: int, clock: int)
    requires clock >= EPOCH + ttl
    ensures Inv(Start(ttl, clock))
  {
  }

  // The theorems.

  /** The version an invalidation running in a thread was called at, and whether it covers `k`. */
  function FloorFor(pc: Pc, k: Key): Option<nat>
  {
    match pc
    case InvCalled(j, w) => if j == k then Some(w) else None
    case InvWaiting(j, w) => if j == k then Some(w) else None
    case InvLocked(j, w) => if j == k then Some(w) else None
    case InvStored(j, w) => if j == k then Some(w) else None
    case InvFinished(j, w) => if j == k then Some(w) else None
    case AllCalled(w) => Some(w)
    case AllHolding(w, _) => Some(w)
    case AllLocked(w, _, _) => Some(w)
    case AllStored(w, _, _) => Some(w)
    case AllFinished(w) => Some(w)
    case _ => None
  }

  /** Thread `t` calls Invalidate of `k`, or InvalidateAll, at `c` and is about to return from it at `r`. */
  ghost predicate InvalidatesDuring(b: seq<State>, t: Thread, k: Key, c: nat, r: nat)
  {
    && c < r < |b|
    && PcOf(b[c], t).Idle?
    && (forall n :: c < n <= r ==> FloorFor(PcOf(b[n], t), k).Some?)
    && (PcOf(b[r], t).InvFinished? || PcOf(b[r], t).AllFinished?)
  }

  lemma {:induction false} FloorIsVersionAtCall(b: seq<State>, acts: seq<Action>, t: Thread, k: Key, c: nat, r: nat)
    requires Behaviour(b, acts) && c < r < |b| && PcOf(b[c], t).Idle?
    requires forall n :: c < n <= r ==> FloorFor(PcOf(b[n], t), k).Some?
    ensures FloorFor(PcOf(b[r], t), k) == Some(b[c].db)
  {
    assert Step(b[r - 1], acts[r - 1]) == Some(b[r]);
    if r > c + 1 {
      FloorIsVersionAtCall(b, acts, t, k, c, r - 1);
    }
  }

  ghost predicate LocksThroughout(b: seq<State>)
  {
    forall i :: 0 <= i < |b| ==> LocksOk(b[i])
  }

  lemma LocksAlways(b: seq<State>, acts: seq<Action>)
    requires Behaviour(b, acts) && Inv(b[0])
    ensures LocksThroughout(b)
  {
    forall i | 0 <= i < |b| ensures LocksOk(b[i]) { BehaviourKeepsInv(b, acts, i); }
  }

  lemma FreshOneStep(b: seq<State>, acts: seq<Action>, k: Key, w: nat, u: Thread, i: nat)
    requires Behaviour(b, acts) && i < |acts| && LocksOk(b[i])
    requires FreshFor(b[i], k, w, u)
    ensures FreshFor(b[i + 1], k, w, u)
  {
    assert Step(b[i], acts[i]) == Some(b[i + 1]);
    FreshStaysFresh(b[i], acts[i], b[i + 1], k, w);
  }

  /** Nothing older than `w` is in the entry, can get in, or is in the hands of a Get of thread `u`. */
  ghost predicate FreshFor(s: State, k: Key, w: nat, u: Thread)
  {
    FreshFrom(s, k, w) && ReaderAtLeast(PcOf(s, u), k, w)
  }

  lemma {:induction false} FreshUntil(b: seq<State>, acts: seq<Action>, k: Key, w: nat, u: Thread, i: nat, j: nat)
    requires Behaviour(b, acts) && LocksThroughout(b) && i <= j < |b| && FreshFor(b[i], k, w, u)
    ensures FreshFor(b[j], k, w, u)
  {
    if i < j {
      FreshUntil(b, acts, k, w, u, i, j - 1);
      FreshOneStep(b, acts, k, w, u, j - 1);
    }
  }

  /**
   Read after invalidate. In every interleaving, a version committed before an invalidation of `k`
   was called is contained in the value returned by every Get of `k` called after that invalidation
   returned. The invalidation may target the one entry, an entry that does not exist yet, or all
   entries. The reader is any thread, the invalidating one included: all that is asked is that at
   some moment `i` no earlier than the return it is between calls, and so calls its Get later.
   */
  lemma ReadAfterInvalidate(
    b: seq<State>, acts: seq<Action>, t: Thread, k: Key, c: nat, r: nat, u: Thread, i: nat, j: nat)
    requires Behaviour(b, acts) && Inv(b[0])
    requires InvalidatesDuring(b, t, k, c, r)
    requires r <= i <= j < |b| && PcOf(b[i], u).Idle?
    requires PcOf(b[j], u).Returning? && PcOf(b[j], u).key == k
    ensures PcOf(b[j], u).value.Some? && PcOf(b[j], u).value.value >= b[c].db
  {
    FloorIsVersionAtCall(b, acts, t, k, c, r);
    BehaviourKeepsInv(b, acts, r);
    BehaviourKeepsInv(b, acts, j);
    assert Promise(b[r], PcOf(b[r], t)) && Timely(b[j], PcOf(b[j], u));
    LocksAlways(b, acts);
    FreshUntil(b, acts, k, b[c].db, t, r, i);
    FreshUntil(b, acts, k, b[c].db, u, i, j);
  }

  /** At most one thread is inside the refresher of an entry, in every reachable state. */
  lemma SingleRefresher(b: seq<State>, acts: seq<Action>, i: nat, t: Thread, u: Thread)
    requires Behaviour(b, acts) && Inv(b[0]) && i < |b|
    requires PcOf(b[i], t).Refreshing? && PcOf(b[i], u).Refreshing? && PcOf(b[i], t).key == PcOf(b[i], u).key
    ensures t == u
  {
    BehaviourKeepsInv(b, acts, i);
    var k := PcOf(b[i], t).key;
    assert LockHeld(PcOf(b[i], t)) == Some(k) && LockHeld(PcOf(b[i], u)) == Some(k);
  }

  /** A value served from the cache was younger than the lifetime when its age was checked. */
  lemma ServedYoung(b: seq<State>, acts: seq<Action>, i: nat, t: Thread)
    requires Behaviour(b, acts) && Inv(b[0]) && i < |b|
    requires PcOf(b[i], t).Returning? && PcOf(b[i], t).source.FromCache?
    ensures PcOf(b[i], t).value.Some?
    ensures PcOf(b[i], t).source.checkedAt < PcOf(b[i], t).source.storedAt + b[i].ttl
  {
    BehaviourKeepsInv(b, acts, i);
    assert Timely(b[i], PcOf(b[i], t));
  }

  /** Step `i` stores a refreshed value for `k`. */
  ghost predicate StoresAt(b: seq<State>, acts: seq<Action>, i: nat, k: Key)
  {
    && i < |acts| && |b| == |acts| + 1 && acts[i].Act?
    && PcOf(b[i], acts[i].thread).Stamped? && PcOf(b[i], acts[i].thread).key == k
  }

  /** Step `i` empties the entry for `k`. */
  ghost predicate EmptiesAt(b: seq<State>, acts: seq<Action>, i: nat, k: Key)
  {
    && i < |acts| && |b| == |acts| + 1 && acts[i].Act?
    && var pc := PcOf(b[i], acts[i].thread);
       (pc.InvLocked? && pc.key == k) || (pc.AllLocked? && pc.key == k)
  }

  function StoreTime(s: State, t: Thread): int
  {
    if PcOf(s, t).Stamped? then PcOf(s, t).at else 0
  }

  /** Short of an invalidation, no step makes an entry older. */
  lemma EntryTimeStep(s: State, a: Action, s': State, k: Key)
    requires Inv(s) && Step(s, a) == Some(s') && s.ttl >= 0 && k in s.entries
    requires a.Act? ==> !(PcOf(s, a.thread).InvLocked? && PcOf(s, a.thread).key == k)
    requires a.Act? ==> !(PcOf(s, a.thread).AllLocked? && PcOf(s, a.thread).key == k)
    ensures k in s'.entries && s'.entries[k].cell.time >= s.entries[k].cell.time
  {
    if a.Act? {
      assert Timely(s, PcOf(s, a.thread));
      PlanLocks(s, PcOf(s, a.thread), a.choice);
    }
  }

  lemma StoreSetsTime(s: State, t: Thread, c: Choice, s': State)
    requires LocksOk(s) && PcOf(s, t).Stamped? && ThreadStep(s, t, c) == Some(s')
    ensures PcOf(s, t).key in s'.entries && s'.entries[PcOf(s, t).key].cell.time == PcOf(s, t).at
  {
    assert LockHeld(PcOf(s, t)) == Some(PcOf(s, t).key);
  }

  lemma {:induction false} EntryTimeGrows(b: seq<State>, acts: seq<Action>, k: Key, i: nat, j: nat)
    requires Behaviour(b, acts) && Inv(b[0]) && i < j < |b| && StoresAt(b, acts, i, k)
    requires b[0].ttl >= 0
    requires forall n :: i < n < j ==> !EmptiesAt(b, acts, n, k)
    ensures k in b[j].entries && b[j].entries[k].cell.time >= StoreTime(b[i], acts[i].thread)
  {
    var n := j - 1;
    BehaviourKeepsInv(b, acts, n);
    assert Step(b[n], acts[n]) == Some(b[j]);
    if n == i {
      StoreSetsTime(b[i], acts[i].thread, acts[i].choice, b[j]);
    } else {
      EntryTimeGrows(b, acts, k, i, n);
      TtlFixed(b, acts, n);
      assert !EmptiesAt(b, acts, n, k);
      EntryTimeStep(b[n], acts[n], b[j], k);
    }
  }

  lemma {:induction false} TtlFixed(b: seq<State>, acts: seq<Action>, i: nat)
    requires Behaviour(b, acts) && i < |b|
    ensures b[i].ttl == b[0].ttl
  {
    if i > 0 {
      TtlFixed(b, acts, i - 1);
      assert Step(b[i - 1], acts[i - 1]) == Some(b[i]);
    }
  }

  /** Two stores of an entry with no invalidation between them lie at least a lifetime apart. */
  lemma StoresAreSpaced(b: seq<State>, acts: seq<Action>, k: Key, i: nat, j: nat)
    requires Behaviour(b, acts) && Inv(b[0]) && b[0].ttl >= 0
    requires i < j && StoresAt(b, acts, i, k) && StoresAt(b, acts, j, k)
    requires forall n :: i < n < j ==> !EmptiesAt(b, acts, n, k)
    ensures StoreTime(b[j], acts[j].thread) >= StoreTime(b[i], acts[i].thread) + b[0].ttl
  {
    EntryTimeGrows(b, acts, k, i, j);
    TtlFixed(b, acts, j);
    BehaviourKeepsInv(b, acts, j);
    assert Timely(b[j], PcOf(b[j], acts[j].thread));
  }

  // Calls that nobody interrupts.

  /** Steps of thread `t` only, always with choice `c`. */
  function Solo(s: State, t: Thread, c: Choice, n: nat): Option<State>
    decreases n
  {
    if n == 0 then Some(s)
    else
      var s' := ThreadStep(s, t, c);
      if s'.None? then None else Solo(s'.value, t, c, n - 1)
  }

  lemma SoloStep(s: State, t: Thread, c: Choice, n: nat)
    requires n > 0 && ThreadStep(s, t, c).Some?
    ensures Solo(s, t, c, n) == Solo(ThreadStep(s, t, c).value, t, c, n - 1)
  {
  }

  /** Before the epoch plus a lifetime, an entry that was never filled counts as valid. */
  lemma UnfilledServedBeforeEpoch(ttl: int, clock: int, k: Key)
    requires clock < EPOCH + ttl
    ensures var s := Start(ttl, clock).(pcs := map[0 := GetCalled(k)]);
            Solo(s, 0, Proceed, 3).Some?
            && PcOf(Solo(s, 0, Proceed, 3).value, 0) == Returning(k, None, FromCache(EPOCH, clock))
  {
    var s := Start(ttl, clock).(pcs := map[0 := GetCalled(k)]);
    SoloStep(s, 0, Proceed, 3);
    var s1 := ThreadStep(s, 0, Proceed).value;
    SoloStep(s1, 0, Proceed, 2);
    var s2 := ThreadStep(s1, 0, Proceed).value;
    SoloStep(s2, 0, Proceed, 1);
  }

  /** The entry as the program stores it; `None` is a failed refresh. */
  class InMemory {
    const ttl: int
    var data: Cell

    constructor (ttl: int)
      ensures this.ttl == ttl && data == EMPTY_CELL
    {
      this.ttl, data := ttl, EMPTY_CELL;
    }

    method Invalidate()
      modifies this
      ensures data == EMPTY_CELL
    {
      data := EMPTY_CELL;
    }

    /** One Get at time `now` whose refresher, if it runs, yields `fetched`. */
    method Get(now: int, fetched: Option<nat>) returns (r: Option<Cell>)
      modifies this
      ensures data == CellAfterGet(old(data), ttl, now, fetched)
      ensures now < old(data).time + ttl ==> data == old(data) && r == Some(old(data))
      ensures old(data).time + ttl <= now && fetched.None? ==> data == old(data) && r == None
      ensures old(data).time + ttl <= now && fetched.Some? ==> data == Cell(fetched, now) && r == Some(data)
    {
      var v := data;
      if StillValid(v.time, ttl, now) {
        return Some(v);
      }
      v := data;
      if StillValid(v.time, ttl, now) {
        return Some(v);
      }
      if fetched.None? {
        return None;
      }
      data := Cell(fetched, now);
      return Some(data);
    }
  }

  function CellAfterGet(c: Cell, ttl: int, now: int, fetched: Option<nat>): Cell
  {
    if StillValid(c.time, ttl, now) || fetched.None? then c else Cell(fetched, now)
  }

  lemma {:induction false} SoloSplit(s: State, t: Thread, c: Choice, m: nat, n: nat)
    requires Solo(s, t, c, m).Some?
    ensures Solo(s, t, c, m + n) == Solo(Solo(s, t, c, m).value, t, c, n)
    decreases m
  {
    if m > 0 { SoloSplit(ThreadStep(s, t, c).value, t, c, m - 1, n); }
  }

  /** Lock, reload, recheck, and enter the refresher. */
  lemma UntilRefreshing(s: State, t: Thread, k: Key, c: Choice)
    requires PcOf(s, t) == GetWaiting(k) && LockFree(s, k)
    requires !StillValid(s.entries[k].cell.time, s.ttl, s.clock)
    ensures var s' := Solo(s, t, c, 4);
            && s'.Some? && PcOf(s'.value, t) == Refreshing(k, s.db)
            && s'.value.entries == s.entries[k := s.entries[k].(owner := Some(t))]
            && s'.value.db == s.db && s'.value.clock == s.clock
  {
    SoloStep(s, t, c, 4);
    var s1 := ThreadStep(s, t, c).value;
    SoloStep(s1, t, c, 3);
    var s2 := ThreadStep(s1, t, c).value;
    SoloStep(s2, t, c, 2);
    var s3 := ThreadStep(s2, t, c).value;
    SoloStep(s3, t, c, 1);
  }

  /** Leave the refresher with a value, stamp it, store it, and unlock. */
  lemma AfterRefreshing(s: State, t: Thread, k: Key, v: nat)
    requires PcOf(s, t) == Refreshing(k, v) && v == s.db && k in s.entries
    ensures var s' := Solo(s, t, RefreshReturns(v), 4);
            && s'.Some? && PcOf(s'.value, t) == Returning(k, Some(v), FromRefresh)
            && s'.value.entries == s.entries[k := Entry(Cell(Some(v), s.clock), None)]
  {
    var c := RefreshReturns(v);
    SoloStep(s, t, c, 4);
    var s1 := ThreadStep(s, t, c).value;
    SoloStep(s1, t, c, 3);
    var s2 := ThreadStep(s1, t, c).value;
    SoloStep(s2, t, c, 2);
    var s3 := ThreadStep(s2, t, c).value;
    SoloStep(s3, t, c, 1);
  }

  /** Left alone, the protocol's Get on an expired entry does what the stored class does. */
  lemma UninterruptedRefresh(s: State, t: Thread, k: Key, v: nat)
    requires PcOf(s, t) == GetWaiting(k) && LockFree(s, k) && v == s.db
    requires s.entries[k].cell.time + s.ttl <= s.clock
    ensures var s' := Solo(s, t, RefreshReturns(v), 8);
            && s'.Some? && k in s'.value.entries
            && s'.value.entries[k] == Entry(Cell(Some(v), s.clock), None)
            && s'.value.entries[k].cell == CellAfterGet(s.entries[k].cell, s.ttl, s.clock, Some(v))
            && PcOf(s'.value, t) == Returning(k, Some(v), FromRefresh)
  {
    var c := RefreshReturns(v);
    UntilRefreshing(s, t, k, c);
    AfterRefreshing(Solo(s, t, c, 4).value, t, k, v);
    SoloSplit(s, t, c, 4, 4);
  }

  // The history of one entry.

  datatype EntryOp = Read(now: int, fetched: Option<nat>) | Drop

  /** The entry and what the last operation answered. */
  function Serve(ttl: int, cell: Cell, op: EntryOp): (Cell, Option<Cell>)
  {
    match op
    case Drop => (EMPTY_CELL, None)
    case Read(now, fetched) =>
      var cell' := CellAfterGet(cell, ttl, now, fetched);
      (cell', if StillValid(cell.time, ttl, now) || fetched.Some? then Some(cell') else None)
  }

  function CellAfter(ttl: int, ops: seq<EntryOp>): Cell
  {
    if ops == [] then EMPTY_CELL else Serve(ttl, CellAfter(ttl, ops[..|ops| - 1]), ops[|ops| - 1]).0
  }

  /** The entry holds what Read `j` fetched, and nothing was dropped or fetched since. */
  ghost predicate FetchedAt(ttl: int, ops: seq<EntryOp>, j: nat, cell: Cell)
  {
    && j < |ops| && ops[j].Read? && ops[j].fetched.Some? && cell == Cell(ops[j].fetched, ops[j].now)
    && forall n :: j < n < |ops| ==> ops[n].Read?
  }

  lemma {:induction false} CellHasSource(ttl: int, ops: seq<EntryOp>)
    ensures CellAfter(ttl, ops) == EMPTY_CELL || exists j: nat :: FetchedAt(ttl, ops, j, CellAfter(ttl, ops))
  {
    if ops != [] {
      var init, op := ops[..|ops| - 1], ops[|ops| - 1];
      CellHasSource(ttl, init);
      var cell, cell' := CellAfter(ttl, init), CellAfter(ttl, ops);
      if op.Read? && cell' != cell {
        assert FetchedAt(ttl, ops, |ops| - 1, cell');
      } else if op.Read? && cell != EMPTY_CELL {
        var j: nat :| FetchedAt(ttl, init, j, cell);
        assert FetchedAt(ttl, ops, j, cell');
      }
    }
  }

  /**
   Over any sequence of reads and drops of one entry: a value that is served was fetched by an earlier
   read less than a lifetime before, with no drop in between, or by this very read; and this read asks
   the refresher exactly when there is no such value.
   */
  lemma ServedWasFetchedRecently(ttl: int, ops: seq<EntryOp>, now: int, fetched: Option<nat>)
    requires now >= EPOCH + ttl
    ensures var (cell, answer) := Serve(ttl, CellAfter(ttl, ops), Read(now, fetched));
            var kept := exists j: nat :: FetchedAt(ttl, ops, j, CellAfter(ttl, ops)) && now < ops[j].now + ttl;
            && (kept ==> cell == CellAfter(ttl, ops) && answer == Some(cell))
            && (!kept ==> if fetched.Some? then cell == Cell(fetched, now) && answer == Some(cell)
                          else cell == CellAfter(ttl, ops) && answer == None)
  {
    CellHasSource(ttl, ops);
    var cell := CellAfter(ttl, ops);
    if cell != EMPTY_CELL {
      var j: nat :| FetchedAt(ttl, ops, j, cell);
      assert cell.time == ops[j].now;
    }
  }

  // Gets that nobody interrupts, the other two ways.

  /** A hit: the value is returned, the entry is not touched, and no lock is taken. */
  lemma UninterruptedHit(s: State, t: Thread, k: Key)
    requires PcOf(s, t) == GetReady(k) && k in s.entries && s.clock < s.entries[k].cell.time + s.ttl
    ensures var s' := Solo(s, t, Proceed, 2);
            && s'.Some? && s'.value.entries == s.entries
            && PcOf(s'.value, t) == Returning(k, s.entries[k].cell.version, FromCache(s.entries[k].cell.time, s.clock))
  {
    SoloStep(s, t, Proceed, 2);
    SoloStep(ThreadStep(s, t, Proceed).value, t, Proceed, 1);
  }

  /** A Get that waited for the lock and then finds a value young enough returns it, untouched. */
  lemma UninterruptedRecheck(s: State, t: Thread, k: Key)
    requires PcOf(s, t) == GetWaiting(k) && LockFree(s, k) && s.clock < s.entries[k].cell.time + s.ttl
    ensures var s' := Solo(s, t, Proceed, 4);
            && s'.Some? && s'.value.entries == s.entries
            && PcOf(s'.value, t) == Returning(k, s.entries[k].cell.version, FromCache(s.entries[k].cell.time, s.clock))
  {
    SoloStep(s, t, Proceed, 4);
    var s1 := ThreadStep(s, t, Proceed).value;
    SoloStep(s1, t, Proceed, 3);
    var s2 := ThreadStep(s1, t, Proceed).value;
    SoloStep(s2, t, Proceed, 2);
    var s3 := ThreadStep(s2, t, Proceed).value;
    SoloStep(s3, t, Proceed, 1);
    assert ThreadStep(s3, t, Proceed).value.entries[k] == s.entries[k];
  }

  /** A refresher that fails leaves the entry as it was and gives the lock back. */
  lemma UninterruptedFailure(s: State, t: Thread, k: Key)
    requires PcOf(s, t) == GetWaiting(k) && LockFree(s, k)
    requires s.entries[k].cell.time + s.ttl <= s.clock
    ensures var s' := Solo(s, t, RefreshErrs, 6);
            s'.Some? && s'.value.entries == s.entries && PcOf(s'.value, t) == Idle
  {
    var c := RefreshErrs;
    UntilRefreshing(s, t, k, c);
    var s4 := Solo(s, t, c, 4).value;
    SoloStep(s4, t, c, 2);
    SoloStep(ThreadStep(s4, t, c).value, t, c, 1);
    SoloSplit(s, t, c, 4, 2);
    assert Solo(s, t, c, 6).value.entries[k] == s.entries[k];
  }

  /** The caches of an event-keyed family, created on first use; different keys never share an entry. */
  class KeyedCache {
    const ttl: int
    var byEvent: map<Key, InMemory>

    ghost predicate Valid()
      reads this
    {
      && (forall k :: k in byEvent ==> byEvent[k].ttl == ttl)
      && (forall j, k :: j in byEvent && k in byEvent && j != k ==> byEvent[j] != byEvent[k])
    }

    ghost function Contents(): map<Key, Cell>
      reads this, byEvent.Values
    {
      map k | k in byEvent :: byEvent[k].data
    }

    constructor (ttl: int)
      ensures this.ttl == ttl && Valid() && Contents() == map[]
    {
      this.ttl, byEvent := ttl, map[];
    }

    method Get(k: Key, now: int, fetched: Option<nat>) returns (r: Option<Cell>)
      requires Valid()
      modifies this, byEvent.Values
      ensures Valid() && fresh(byEvent.Values - old(byEvent.Values))
      ensures var cell := if k in old(Contents()) then old(Contents())[k] else EMPTY_CELL;
              && Contents() == old(Contents())[k := CellAfterGet(cell, ttl, now, fetched)]
              && (now < cell.time + ttl ==> Contents()[k] == cell && r == Some(cell))
              && (cell.time + ttl <= now && fetched.None? ==> Contents()[k] == cell && r == None)
              && (cell.time + ttl <= now && fetched.Some? ==>
                    Contents()[k] == Cell(fetched, now) && r == Some(Contents()[k]))
    {
      ghost var before := Contents();
      if k !in byEvent {
        var entry := new InMemory(ttl);
        byEvent := byEvent[k := entry];
      }
      r := byEvent[k].Get(now, fetched);
      assert Contents().Keys == before.Keys + {k};
      assert forall j :: j in before && j != k ==> Contents()[j] == before[j];
    }

    /** Of an event that was never read: nothing happens, and its first read will load. */
    method InvalidateEvent(k: Key)
      requires Valid()
      modifies byEvent.Values
      ensures Valid()
      ensures Contents() == if k in old(Contents()) then old(Contents())[k := EMPTY_CELL] else old(Contents())
    {
      ghost var before := Contents();
      if k in byEvent {
        byEvent[k].Invalidate();
        assert Contents().Keys == before.Keys;
        assert forall j :: j in before && j != k ==> Contents()[j] == before[j];
      }
    }

    method InvalidateAll()
      requires Valid()
      modifies byEvent.Values
      ensures Valid() && Contents().Keys == old(Contents()).Keys
      ensures forall k :: k in Contents() ==> Contents()[k] == EMPTY_CELL
    {
      var rest := byEvent.Keys;
      while rest != {}
        invariant rest <= byEvent.Keys
        invariant forall k :: k in byEvent && k !in rest ==> byEvent[k].data == EMPTY_CELL
      {
        assert (forall k :: k !in rest) ==> rest == {};
        var k :| k in rest;
        byEvent[k].Invalidate();
        rest := rest - {k};
      }
    }
  }
}
