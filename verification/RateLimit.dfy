/**
 The login rate limiter (go/internal/server/ratelimit.go): per key, a count of consecutive failures
 with exponential backoff, a lockout at a ceiling, an idle reset, and pruning of dead entries.
 Times and durations are integers (nanoseconds) and the clock never runs backwards.
 */
module RateLimit {
  import opened Prelude

  type Key = string

  const SECOND := 1000000000
  const MINUTE := 60 * SECOND
  const PRUNE_THRESHOLD := 4096

  datatype Config = Config(
    enabled: bool, maxFailures: int, lockout: int,
    backoffThresh: int, backoffBase: int, backoffMax: int, resetWindow: int)

  const DEFAULT := Config(true, 8, 15 * MINUTE, 3, SECOND, 30 * SECOND, 15 * MINUTE)

  /** `lockedUntil` is `None` for Go's zero time. */
  datatype Attempt = Attempt(failures: int, lastFailure: int, lockedUntil: Option<int>)

  type Table = map<Key, Attempt>

  datatype Answer = Answer(ok: bool, wait: int)

  // The rules for one key.

  function Pow2(n: nat): nat { if n == 0 then 1 else 2 * Pow2(n - 1) }

  function BackoffFor(cfg: Config, failures: int): int
  {
    var exp := failures - cfg.backoffThresh;
    if exp < 0 then 0
    else if exp > 32 then cfg.backoffMax
    else
      var d := cfg.backoffBase * Pow2(exp);
      if d > cfg.backoffMax then cfg.backoffMax else d
  }

  predicate Locked(st: Attempt, now: int)
  {
    st.lockedUntil.Some? && now < st.lockedUntil.value
  }

  predicate Idle(cfg: Config, st: Attempt, now: int)
  {
    now - st.lastFailure > cfg.resetWindow
  }

  predicate Stale(cfg: Config, st: Attempt, now: int)
  {
    !Locked(st, now) && Idle(cfg, st, now)
  }

  function AllowAnswer(cfg: Config, e: Option<Attempt>, now: int): Answer
  {
    if e.None? then Answer(true, 0)
    else
      var st := e.value;
      if Locked(st, now) then Answer(false, st.lockedUntil.value - now)
      else if st.lockedUntil.Some? || Idle(cfg, st, now) then Answer(true, 0)
      else
        var wait := st.lastFailure + BackoffFor(cfg, st.failures) - now;
        if st.failures >= cfg.backoffThresh && wait > 0 then Answer(false, wait) else Answer(true, 0)
  }

  function AllowEntry(cfg: Config, e: Option<Attempt>, now: int): Option<Attempt>
  {
    if e.Some? && !Locked(e.value, now) && (e.value.lockedUntil.Some? || Idle(cfg, e.value, now)) then None else e
  }

  /** A lapsed lockout or a long silence makes a new failure the first of a new streak. */
  predicate Resets(cfg: Config, e: Option<Attempt>, now: int)
  {
    e.None? || (e.value.lockedUntil.Some? && now > e.value.lockedUntil.value) || Idle(cfg, e.value, now)
  }

  function FailEntry(cfg: Config, e: Option<Attempt>, now: int): Attempt
  {
    var failures := (if Resets(cfg, e, now) then 0 else e.value.failures) + 1;
    Attempt(failures, now,
            if failures >= cfg.maxFailures then Some(now + cfg.lockout)
            else if Resets(cfg, e, now) then None
            else e.value.lockedUntil)
  }

  // The whole table, with or without pruning.

  datatype Op =
    | Allow(key: Key, at: int)
    | RecordFailure(key: Key, at: int)
    | RecordSuccess(key: Key, at: int)

  function Lookup(m: Table, k: Key): Option<Attempt>
  {
    if k in m then Some(m[k]) else None
  }

  function Put(m: Table, k: Key, e: Option<Attempt>): Table
  {
    if e.Some? then m[k := e.value] else m - {k}
  }

  function Pruned(cfg: Config, m: Table, now: int): Table
  {
    map k | k in m && !Stale(cfg, m[k], now) :: m[k]
  }

  function BeforeFailure(cfg: Config, prune: bool, m: Table, now: int): Table
  {
    if prune && |m| > PRUNE_THRESHOLD then Pruned(cfg, m, now) else m
  }

  function Step(cfg: Config, prune: bool, m: Table, op: Op): Table
  {
    if !cfg.enabled then m
    else
      match op
      case Allow(k, now) => Put(m, k, AllowEntry(cfg, Lookup(m, k), now))
      case RecordFailure(k, now) =>
        var m' := BeforeFailure(cfg, prune, m, now);
        m'[k := FailEntry(cfg, Lookup(m', k), now)]
      case RecordSuccess(k, _) => m - {k}
  }

  function AnswerTo(cfg: Config, m: Table, op: Op): Answer
  {
    if cfg.enabled && op.Allow? then AllowAnswer(cfg, Lookup(m, op.key), op.at) else Answer(true, 0)
  }

  function Run(cfg: Config, prune: bool, ops: seq<Op>): Table
  {
    if ops == [] then map[] else Step(cfg, prune, Run(cfg, prune, ops[..|ops| - 1]), ops[|ops| - 1])
  }

  /** What each operation of a run was told, in order. */
  function Answers(cfg: Config, prune: bool, ops: seq<Op>): seq<Answer>
  {
    if ops == [] then []
    else
      var init := ops[..|ops| - 1];
      Answers(cfg, prune, init) + [AnswerTo(cfg, Run(cfg, prune, init), ops[|ops| - 1])]
  }

  ghost predicate ClockOrdered(ops: seq<Op>)
  {
    forall i, j :: 0 <= i < j < |ops| ==> ops[i].at <= ops[j].at
  }

  // Pruning is unobservable.

  /** The entry as far as it still matters at `now`. */
  function Live(cfg: Config, e: Option<Attempt>, now: int): Option<Attempt>
  {
    if e.Some? && Stale(cfg, e.value, now) then None else e
  }

  ghost predicate SameLive(cfg: Config, m: Table, m': Table, now: int)
  {
    forall k: Key :: Live(cfg, Lookup(m, k), now) == Live(cfg, Lookup(m', k), now)
  }

  /** No rule can tell a stale entry from a missing one. */
  lemma StaleActsMissing(cfg: Config, e: Option<Attempt>, now: int)
    ensures AllowAnswer(cfg, e, now) == AllowAnswer(cfg, Live(cfg, e, now), now)
    ensures Live(cfg, AllowEntry(cfg, e, now), now) == Live(cfg, AllowEntry(cfg, Live(cfg, e, now), now), now)
    ensures FailEntry(cfg, e, now) == FailEntry(cfg, Live(cfg, e, now), now)
  {
  }

  lemma StaleForever(cfg: Config, e: Option<Attempt>, now: int, later: int)
    requires now <= later
    ensures Live(cfg, Live(cfg, e, now), later) == Live(cfg, e, later)
  {
  }

  lemma SameLiveLater(cfg: Config, m: Table, m': Table, now: int, later: int)
    requires SameLive(cfg, m, m', now) && now <= later
    ensures SameLive(cfg, m, m', later)
  {
    forall k: Key ensures Live(cfg, Lookup(m, k), later) == Live(cfg, Lookup(m', k), later) {
      StaleForever(cfg, Lookup(m, k), now, later);
      StaleForever(cfg, Lookup(m', k), now, later);
      assert Live(cfg, Lookup(m, k), now) == Live(cfg, Lookup(m', k), now);
    }
  }

  lemma PruneKeepsLive(cfg: Config, prune: bool, m: Table, now: int)
    ensures SameLive(cfg, m, BeforeFailure(cfg, prune, m, now), now)
  {
  }

  lemma StepKeepsSameLive(cfg: Config, p: bool, p': bool, m: Table, m': Table, op: Op)
    requires SameLive(cfg, m, m', op.at)
    ensures SameLive(cfg, Step(cfg, p, m, op), Step(cfg, p', m', op), op.at)
    ensures AnswerTo(cfg, m, op) == AnswerTo(cfg, m', op)
  {
    var now := op.at;
    StaleActsMissing(cfg, Lookup(m, op.key), now);
    StaleActsMissing(cfg, Lookup(m', op.key), now);
    assert Live(cfg, Lookup(m, op.key), now) == Live(cfg, Lookup(m', op.key), now);
    if op.RecordFailure? {
      var q, q' := BeforeFailure(cfg, p, m, now), BeforeFailure(cfg, p', m', now);
      PruneKeepsLive(cfg, p, m, now);
      PruneKeepsLive(cfg, p', m', now);
      forall k: Key ensures Live(cfg, Lookup(q, k), now) == Live(cfg, Lookup(q', k), now) {
        assert Live(cfg, Lookup(m, k), now) == Live(cfg, Lookup(m', k), now);
      }
      StaleActsMissing(cfg, Lookup(q, op.key), now);
      StaleActsMissing(cfg, Lookup(q', op.key), now);
    }
    var r, r' := Step(cfg, p, m, op), Step(cfg, p', m', op);
    forall k: Key ensures Live(cfg, Lookup(r, k), now) == Live(cfg, Lookup(r', k), now) {
      assert Live(cfg, Lookup(m, k), now) == Live(cfg, Lookup(m', k), now);
    }
  }

  lemma {:induction false} RunsAgree(cfg: Config, p: bool, p': bool, ops: seq<Op>, now: int)
    requires ClockOrdered(ops) && (ops != [] ==> ops[|ops| - 1].at <= now)
    ensures SameLive(cfg, Run(cfg, p, ops), Run(cfg, p', ops), now)
    ensures Answers(cfg, p, ops) == Answers(cfg, p', ops)
  {
    if ops != [] {
      var init, op := ops[..|ops| - 1], ops[|ops| - 1];
      RunsAgree(cfg, p, p', init, op.at);
      StepKeepsSameLive(cfg, p, p', Run(cfg, p, init), Run(cfg, p', init), op);
      SameLiveLater(cfg, Run(cfg, p, ops), Run(cfg, p', ops), op.at, now);
    }
  }

  /**
   Pruning is unobservable: over any operations on any keys, the limiter and a copy that never prunes
   give the same answer, decision and wait, to every Allow.
   */
  lemma PruningUnobservable(cfg: Config, ops: seq<Op>)
    requires ClockOrdered(ops)
    ensures Answers(cfg, true, ops) == Answers(cfg, false, ops)
  {
    if ops != [] {
      RunsAgree(cfg, true, false, ops, ops[|ops| - 1].at);
    }
  }

  // Throughput.

  function Ceiling(cfg: Config): nat
  {
    if cfg.maxFailures < 1 then 1 else cfg.maxFailures
  }

  /** The shortest pause after which a streak may start over. */
  function Pause(cfg: Config): int
  {
    if cfg.lockout < cfg.resetWindow then cfg.lockout else cfg.resetWindow
  }

  function FailuresIn(ops: seq<Op>, key: Key, from: int, to: int): nat
  {
    if ops == [] then 0
    else
      var op := ops[|ops| - 1];
      FailuresIn(ops[..|ops| - 1], key, from, to) +
      (if op.RecordFailure? && op.key == key && from <= op.at <= to then 1 else 0)
  }

  /** Operation `j` is an Allow of `key` that answered true, and the latest operation on `key`. */
  ghost predicate AdmittedAt(cfg: Config, ops: seq<Op>, key: Key, j: int)
  {
    && 0 <= j < |ops| && ops[j].Allow? && ops[j].key == key
    && AnswerTo(cfg, Run(cfg, true, ops[..j]), ops[j]).ok
    && forall n :: j < n < |ops| ==> ops[n].key != key
  }

  ghost predicate Admitted(cfg: Config, ops: seq<Op>, key: Key)
  {
    exists j :: AdmittedAt(cfg, ops, key, j)
  }

  /** Each failure of `key` follows an admission of `key`, and no login with it succeeds. */
  ghost predicate Disciplined(cfg: Config, ops: seq<Op>, key: Key)
  {
    && (forall i :: 0 <= i < |ops| && ops[i].key == key ==> !ops[i].RecordSuccess?)
    && (forall i :: 0 <= i < |ops| && ops[i].key == key && ops[i].RecordFailure? ==> Admitted(cfg, ops[..i], key))
  }

  /**
   How one operation may change the number of attempts on `key` in flight: an admission starts one, a
   failure ends one, and any number may be given up at any moment. No attempt succeeds.
   */
  ghost predicate FlightStep(cfg: Config, m: Table, op: Op, key: Key, before: nat, after: nat)
  {
    if op.key != key then after <= before
    else
      match op
      case Allow(_, _) => after <= before + if AnswerTo(cfg, m, op).ok then 1 else 0
      case RecordFailure(_, _) => after + 1 <= before
      case RecordSuccess(_, _) => false
  }

  /** `flight` counts the attempts on `key` in flight before each operation and at the end; never more than `c`. */
  ghost predicate InFlight(cfg: Config, ops: seq<Op>, key: Key, c: nat, flight: seq<nat>)
  {
    && |flight| == |ops| + 1 && flight[0] == 0 && (forall i :: 0 <= i < |flight| ==> flight[i] <= c)
    && forall i :: 0 <= i < |ops| ==>
                     FlightStep(cfg, Run(cfg, true, ops[..i]), ops[i], key, flight[i], flight[i + 1])
  }

  lemma FlightPrefix(cfg: Config, ops: seq<Op>, key: Key, c: nat, flight: seq<nat>)
    requires InFlight(cfg, ops, key, c, flight) && ops != []
    ensures InFlight(cfg, ops[..|ops| - 1], key, c, flight[..|ops|])
    ensures FlightStep(cfg, Run(cfg, true, ops[..|ops| - 1]), ops[|ops| - 1], key, flight[|ops| - 1], flight[|ops|])
  {
    var init := ops[..|ops| - 1];
    forall i | 0 <= i < |init|
      ensures FlightStep(cfg, Run(cfg, true, init[..i]), init[i], key, flight[..|ops|][i], flight[..|ops|][i + 1])
    {
      assert init[..i] == ops[..i];
    }
  }

  /** One attempt at a time is the case `c == 1`. */
  lemma {:induction false} DisciplinedIsOneAtATime(cfg: Config, ops: seq<Op>, key: Key) returns (flight: seq<nat>)
    requires Disciplined(cfg, ops, key)
    ensures InFlight(cfg, ops, key, 1, flight)
    ensures flight[|ops|] == if Admitted(cfg, ops, key) then 1 else 0
  {
    if ops == [] {
      flight := [0];
    } else {
      var init, op := ops[..|ops| - 1], ops[|ops| - 1];
      DisciplinedPrefix(cfg, ops, key, |ops| - 1);
      var before := DisciplinedIsOneAtATime(cfg, init, key);
      var last: nat := if Admitted(cfg, ops, key) then 1 else 0;
      AdmittedStepwise(cfg, ops, key);
      flight := before + [last];
      forall i | 0 <= i < |ops|
        ensures FlightStep(cfg, Run(cfg, true, ops[..i]), ops[i], key, flight[i], flight[i + 1])
      {
        if i < |init| { assert init[..i] == ops[..i] && init[i] == ops[i]; }
      }
    }
  }

  lemma AdmittedEarlier(cfg: Config, ops: seq<Op>, key: Key, j: int)
    requires 0 <= j < |ops| - 1
    ensures AdmittedAt(cfg, ops, key, j) <==> AdmittedAt(cfg, ops[..|ops| - 1], key, j) && ops[|ops| - 1].key != key
  {
    var init := ops[..|ops| - 1];
    assert init[..j] == ops[..j] && init[j] == ops[j];
    assert forall n :: j < n < |init| ==> init[n] == ops[n];
  }

  lemma AdmittedStepwise(cfg: Config, ops: seq<Op>, key: Key)
    requires ops != []
    ensures var init, op := ops[..|ops| - 1], ops[|ops| - 1];
            Admitted(cfg, ops, key) <==>
            if op.key != key then Admitted(cfg, init, key)
            else op.Allow? && AnswerTo(cfg, Run(cfg, true, init), op).ok
  {
    var init, last := ops[..|ops| - 1], |ops| - 1;
    if ops[last].key != key {
      forall j | 0 <= j < last ensures AdmittedAt(cfg, ops, key, j) <==> AdmittedAt(cfg, init, key, j) {
        AdmittedEarlier(cfg, ops, key, j);
      }
      assert !AdmittedAt(cfg, ops, key, last);
    } else {
      forall j | 0 <= j < last ensures !AdmittedAt(cfg, ops, key, j) { AdmittedEarlier(cfg, ops, key, j); }
      assert AdmittedAt(cfg, ops, key, last) <==> ops[last].Allow? && AnswerTo(cfg, Run(cfg, true, init), ops[last]).ok;
    }
  }

  lemma DisciplinedPrefix(cfg: Config, ops: seq<Op>, key: Key, n: nat)
    requires Disciplined(cfg, ops, key) && n <= |ops|
    ensures Disciplined(cfg, ops[..n], key)
  {
    forall i | 0 <= i < n && ops[i].key == key && ops[i].RecordFailure? ensures Admitted(cfg, ops[..n][..i], key) {
      assert ops[..n][..i] == ops[..i];
    }
  }

  /** The longest streak with `c` attempts in flight: the last to be admitted before the lockout may still fail. */
  function Longest(cfg: Config, c: nat): nat
    requires c >= 1
  {
    Ceiling(cfg) + c - 1
  }

  /** The entry as the latest failure of `key` left it. */
  function LastFailed(cfg: Config, ops: seq<Op>, key: Key): Option<Attempt>
  {
    if ops == [] then None
    else if ops[|ops| - 1].RecordFailure? && ops[|ops| - 1].key == key then Lookup(Run(cfg, true, ops), key)
    else LastFailed(cfg, ops[..|ops| - 1], key)
  }

  /**
   The entry in the table is the latest failure's, unless a full pause has passed since; and while a
   streak is locked, it has room for the failures still in flight.
   */
  ghost predicate Remembered(cfg: Config, c: nat, e: Option<Attempt>, last: Option<Attempt>, flying: nat, now: int)
    requires c >= 1
  {
    if last.None? then e.None?
    else
      && 1 <= last.value.failures <= Longest(cfg, c)
      && last.value.lastFailure <= now
      && last.value.lockedUntil == (if last.value.failures >= cfg.maxFailures
                                    then Some(last.value.lastFailure + cfg.lockout) else None)
      && (e == last || (e.None? && now >= last.value.lastFailure + Pause(cfg)))
      && (e == last && last.value.failures >= Ceiling(cfg) ==> last.value.failures + flying <= Longest(cfg, c))
  }

  lemma RememberedLater(cfg: Config, c: nat, e: Option<Attempt>, last: Option<Attempt>,
                        flying: nat, fewer: nat, now: int, later: int)
    requires c >= 1 && Remembered(cfg, c, e, last, flying, now) && fewer <= flying && now <= later
    ensures Remembered(cfg, c, e, last, fewer, later)
  {
  }

  /** Allow and pruning only ever drop an entry a full pause after its last failure. */
  lemma DroppedAfterPause(cfg: Config, c: nat, e: Option<Attempt>, last: Option<Attempt>, flying: nat, now: int)
    requires c >= 1 && Remembered(cfg, c, e, last, flying, now)
    ensures Remembered(cfg, c, AllowEntry(cfg, e, now), last, flying, now)
    ensures Remembered(cfg, c, Live(cfg, e, now), last, flying, now)
  {
  }

  /** A locked key admits nobody, so an admission starts no attempt that could lengthen a locked streak. */
  lemma AdmissionKeepsRoom(cfg: Config, c: nat, e: Option<Attempt>, last: Option<Attempt>, flying: nat, now: int)
    requires c >= 1 && Remembered(cfg, c, e, last, flying, now) && AllowAnswer(cfg, e, now).ok
    ensures Remembered(cfg, c, AllowEntry(cfg, e, now), last, flying + 1, now)
  {
  }

  /**
   A failure of an attempt in flight extends a streak that has room for it, or starts a new one a
   full pause later.
   */
  lemma FailureInFlight(cfg: Config, c: nat, e: Option<Attempt>, last: Option<Attempt>, flying: nat, now: int)
    requires c >= 1 && Remembered(cfg, c, e, last, flying, now) && 1 <= flying <= c
    ensures var f := FailEntry(cfg, e, now);
            && f.lastFailure == now
            && Remembered(cfg, c, Some(f), Some(f), flying - 1, now)
            && Follows(cfg, c, last, f)
  {
  }

  lemma BeforeFailureEntry(cfg: Config, prune: bool, m: Table, now: int, key: Key)
    ensures Lookup(BeforeFailure(cfg, prune, m, now), key) == Lookup(m, key)
            || Lookup(BeforeFailure(cfg, prune, m, now), key) == Live(cfg, Lookup(m, key), now)
  {
  }

  /** What one operation does to the bookkeeping. */
  lemma RememberedStep(cfg: Config, c: nat, m: Table, op: Op, key: Key, last: Option<Attempt>, flying: nat, after: nat)
    requires cfg.enabled && c >= 1 && flying <= c
    requires Remembered(cfg, c, Lookup(m, key), last, flying, op.at) && FlightStep(cfg, m, op, key, flying, after)
    ensures var e' := Lookup(Step(cfg, true, m, op), key);
            if op.RecordFailure? && op.key == key
            then e'.Some? && e'.value.lastFailure == op.at && Follows(cfg, c, last, e'.value)
                 && Remembered(cfg, c, e', e', after, op.at)
            else Remembered(cfg, c, e', last, after, op.at)
  {
    var e := Lookup(m, key);
    DroppedAfterPause(cfg, c, e, last, flying, op.at);
    if op.RecordFailure? {
      BeforeFailureEntry(cfg, true, m, op.at, key);
      var e1 := Lookup(BeforeFailure(cfg, true, m, op.at), key);
      if op.key == key {
        FailureInFlight(cfg, c, e1, last, flying, op.at);
        var f := Some(FailEntry(cfg, e1, op.at));
        RememberedLater(cfg, c, f, f, flying - 1, after, op.at, op.at);
      }
    } else if op.Allow? && op.key == key && AllowAnswer(cfg, e, op.at).ok {
      AdmissionKeepsRoom(cfg, c, e, last, flying, op.at);
    }
  }

  lemma RememberedRun(cfg: Config, c: nat, ops: seq<Op>, key: Key, flying: nat, after: nat)
    requires cfg.enabled && c >= 1 && flying <= c && ops != []
    requires var init, op := ops[..|ops| - 1], ops[|ops| - 1];
             var m := Run(cfg, true, init);
             && Remembered(cfg, c, Lookup(m, key), LastFailed(cfg, init, key), flying, op.at)
             && FlightStep(cfg, m, op, key, flying, after)
    ensures Remembered(cfg, c, Lookup(Run(cfg, true, ops), key), LastFailed(cfg, ops, key), after, ops[|ops| - 1].at)
  {
    var init := ops[..|ops| - 1];
    RememberedStep(cfg, c, Run(cfg, true, init), ops[|ops| - 1], key, LastFailed(cfg, init, key), flying, after);
  }

  /** The bookkeeping after `ops`, as seen at a time no earlier than the last of them. */
  lemma {:induction false} KeyIsRemembered(cfg: Config, ops: seq<Op>, key: Key, c: nat, flight: seq<nat>, now: int)
    requires cfg.enabled && c >= 1 && ClockOrdered(ops) && InFlight(cfg, ops, key, c, flight)
    requires ops != [] ==> ops[|ops| - 1].at <= now
    ensures Remembered(cfg, c, Lookup(Run(cfg, true, ops), key), LastFailed(cfg, ops, key), flight[|ops|], now)
  {
    if ops != [] {
      FlightPrefix(cfg, ops, key, c, flight);
      KeyIsRemembered(cfg, ops[..|ops| - 1], key, c, flight[..|ops|], ops[|ops| - 1].at);
      RememberedRun(cfg, c, ops, key, flight[|ops| - 1], flight[|ops|]);
      RememberedLater(cfg, c, Lookup(Run(cfg, true, ops), key), LastFailed(cfg, ops, key),
                      flight[|ops|], flight[|ops|], ops[|ops| - 1].at, now);
    }
  }

  function Times(k: nat, d: int): int { if k == 0 then 0 else Times(k - 1, d) + d }

  lemma {:induction false} TimesIsProduct(k: nat, d: int)
    ensures Times(k, d) == k * d
  {
    if k > 0 {
      TimesIsProduct(k - 1, d);
      assert (k - 1) * d + d == k * d;
    }
  }

  /**
   `k` full pauses fit between the start of the window and the latest failure in it, and the streaks
   so far account for all failures counted.
   */
  ghost predicate Accounted(cfg: Config, c: nat, count: nat, last: Option<Attempt>, from: int, to: int, k: nat)
    requires c >= 1
  {
    && last.Some? && last.value.lastFailure >= from
    && Times(k, Pause(cfg)) <= to - from
    && count <= Times(k, Longest(cfg, c)) + Longest(cfg, c)
    && (last.value.lastFailure <= to ==>
          && Times(k, Pause(cfg)) <= last.value.lastFailure - from
          && count <= Times(k, Longest(cfg, c)) + last.value.failures)
  }

  ghost predicate HasAccount(cfg: Config, c: nat, count: nat, last: Option<Attempt>, from: int, to: int)
    requires c >= 1
  {
    exists k: nat :: Accounted(cfg, c, count, last, from, to, k)
  }

  lemma AccountOneMore(cfg: Config, c: nat, count: nat, last: Option<Attempt>, f: Attempt, from: int, to: int)
    requires c >= 1 && Pause(cfg) > 0 && HasAccount(cfg, c, count, last, from, to)
    requires last.Some? && Follows(cfg, c, last, f)
    ensures HasAccount(cfg, c, if f.lastFailure <= to then count + 1 else count, Some(f), from, to)
  {
    var k: nat :| Accounted(cfg, c, count, last, from, to, k);
    if f.lastFailure > to || f.failures == last.value.failures + 1 {
      assert Accounted(cfg, c, if f.lastFailure <= to then count + 1 else count, Some(f), from, to, k);
    } else {
      assert Accounted(cfg, c, count + 1, Some(f), from, to, k + 1);
    }
  }

  /** Every failure of `key` so far follows from the one before it. */
  ghost predicate AllFollow(cfg: Config, ops: seq<Op>, key: Key, c: nat)
    requires c >= 1
  {
    ops == [] ||
    var init, op := ops[..|ops| - 1], ops[|ops| - 1];
    && AllFollow(cfg, init, key, c)
    && (op.RecordFailure? && op.key == key ==>
          var f := LastFailed(cfg, ops, key);
          f.Some? && f.value.lastFailure == op.at && Follows(cfg, c, LastFailed(cfg, init, key), f.value))
  }

  lemma {:induction false} FailuresFollow(cfg: Config, ops: seq<Op>, key: Key, c: nat, flight: seq<nat>)
    requires cfg.enabled && c >= 1 && ClockOrdered(ops) && InFlight(cfg, ops, key, c, flight)
    ensures AllFollow(cfg, ops, key, c)
  {
    if ops != [] {
      FlightPrefix(cfg, ops, key, c, flight);
      FailuresFollow(cfg, ops[..|ops| - 1], key, c, flight[..|ops|]);
      if ops[|ops| - 1].RecordFailure? && ops[|ops| - 1].key == key { NextFailure(cfg, ops, key, c, flight); }
    }
  }

  lemma {:induction false} FailuresAccounted(cfg: Config, ops: seq<Op>, key: Key, c: nat, from: int, to: int)
    requires c >= 1 && Pause(cfg) > 0 && from <= to && AllFollow(cfg, ops, key, c)
    ensures FailuresIn(ops, key, from, to) == 0
            || HasAccount(cfg, c, FailuresIn(ops, key, from, to), LastFailed(cfg, ops, key), from, to)
  {
    if ops != [] {
      var init, op := ops[..|ops| - 1], ops[|ops| - 1];
      FailuresAccounted(cfg, init, key, c, from, to);
      if op.RecordFailure? && op.key == key {
        CountThisFailure(cfg, c, FailuresIn(init, key, from, to), LastFailed(cfg, init, key),
                         LastFailed(cfg, ops, key).value, from, to);
      }
    }
  }

  /** `f` continues, or after a pause restarts, the streak that `last` left. */
  ghost predicate Follows(cfg: Config, c: nat, last: Option<Attempt>, f: Attempt)
    requires c >= 1
  {
    && 1 <= f.failures <= Longest(cfg, c)
    && (last.Some? ==>
          && last.value.lastFailure <= f.lastFailure
          && last.value.failures <= Longest(cfg, c)
          && (f.failures == last.value.failures + 1
              || (f.failures == 1 && f.lastFailure >= last.value.lastFailure + Pause(cfg))))
  }

  lemma NextFailure(cfg: Config, ops: seq<Op>, key: Key, c: nat, flight: seq<nat>)
    requires cfg.enabled && c >= 1 && ClockOrdered(ops) && InFlight(cfg, ops, key, c, flight) && ops != []
    requires ops[|ops| - 1].RecordFailure? && ops[|ops| - 1].key == key
    ensures var f := LastFailed(cfg, ops, key);
            f.Some? && f.value.lastFailure == ops[|ops| - 1].at
            && Follows(cfg, c, LastFailed(cfg, ops[..|ops| - 1], key), f.value)
  {
    var init, op := ops[..|ops| - 1], ops[|ops| - 1];
    FlightPrefix(cfg, ops, key, c, flight);
    KeyIsRemembered(cfg, init, key, c, flight[..|ops|], op.at);
    RememberedStep(cfg, c, Run(cfg, true, init), op, key, LastFailed(cfg, init, key), flight[|ops| - 1], flight[|ops|]);
  }

  lemma CountThisFailure(cfg: Config, c: nat, count: nat, last: Option<Attempt>, f: Attempt, from: int, to: int)
    requires c >= 1 && Pause(cfg) > 0 && from <= to
    requires count == 0 || HasAccount(cfg, c, count, last, from, to)
    requires Follows(cfg, c, last, f)
    ensures var count' := count + (if from <= f.lastFailure <= to then 1 else 0);
            count' == 0 || HasAccount(cfg, c, count', Some(f), from, to)
  {
    if count > 0 {
      assert last.Some? && last.value.lastFailure >= from;
      AccountOneMore(cfg, c, count, last, f, from, to);
    } else if from <= f.lastFailure <= to {
      assert Accounted(cfg, c, 1, Some(f), from, to, 0);
    }
  }

  /**
   Throughput. A key whose failures all come from admitted attempts, at most `c` of them in flight at
   once, with no success, sees in any span of length `to - from` at most one longest streak's worth of
   failures per full pause begun, whatever other keys do.
   */
  lemma ThroughputInFlight(cfg: Config, ops: seq<Op>, key: Key, c: nat, flight: seq<nat>, from: int, to: int)
    requires cfg.enabled && c >= 1 && Pause(cfg) > 0 && from <= to
    requires ClockOrdered(ops) && InFlight(cfg, ops, key, c, flight)
    ensures var ceiling := if cfg.maxFailures < 1 then 1 else cfg.maxFailures;
            var pause := if cfg.lockout < cfg.resetWindow then cfg.lockout else cfg.resetWindow;
            FailuresIn(ops, key, from, to) <= (ceiling + c - 1) * ((to - from) / pause + 1)
  {
    FailuresFollow(cfg, ops, key, c, flight);
    FailuresAccounted(cfg, ops, key, c, from, to);
    BoundFromAccount(cfg, c, FailuresIn(ops, key, from, to), LastFailed(cfg, ops, key), from, to);
  }

  /** With one attempt at a time, each failure directly following an admission, a streak is the ceiling. */
  lemma ThroughputBound(cfg: Config, ops: seq<Op>, key: Key, from: int, to: int)
    requires cfg.enabled && Pause(cfg) > 0 && from <= to
    requires ClockOrdered(ops) && Disciplined(cfg, ops, key)
    ensures var ceiling := if cfg.maxFailures < 1 then 1 else cfg.maxFailures;
            var pause := if cfg.lockout < cfg.resetWindow then cfg.lockout else cfg.resetWindow;
            FailuresIn(ops, key, from, to) <= ceiling * ((to - from) / pause + 1)
  {
    var flight := DisciplinedIsOneAtATime(cfg, ops, key);
    ThroughputInFlight(cfg, ops, key, 1, flight, from, to);
  }

  lemma BoundFromAccount(cfg: Config, c: nat, count: nat, last: Option<Attempt>, from: int, to: int)
    requires c >= 1 && Pause(cfg) > 0 && from <= to
    requires count == 0 || HasAccount(cfg, c, count, last, from, to)
    ensures count <= Longest(cfg, c) * ((to - from) / Pause(cfg) + 1)
  {
    if count == 0 {
      BoundArithmetic(0, 0, Longest(cfg, c), Pause(cfg), to - from);
    } else {
      var k: nat :| Accounted(cfg, c, count, last, from, to, k);
      BoundArithmetic(count, k, Longest(cfg, c), Pause(cfg), to - from);
    }
  }

  lemma PausesFit(k: nat, pause: int, span: int)
    requires pause > 0 && span >= 0 && Times(k, pause) <= span
    ensures k <= span / pause
  {
    TimesIsProduct(k, pause);
    DivLowerBound(span, pause, k);
  }

  lemma TimesMonotone(k: nat, q: nat, n: nat)
    requires k <= q
    ensures Times(k, n) + n <= n * (q + 1)
  {
    TimesIsProduct(k + 1, n);
    ProductMonotone(n, k + 1, q + 1);
  }

  lemma BoundArithmetic(count: nat, k: nat, n: nat, pause: int, span: int)
    requires pause > 0 && span >= 0 && Times(k, pause) <= span && count <= Times(k, n) + n
    ensures count <= n * (span / pause + 1)
  {
    PausesFit(k, pause, span);
    TimesMonotone(k, span / pause, n);
  }

  lemma ProductMonotone(c: nat, a: nat, b: int)
    requires a <= b
    ensures c * a <= c * b
  {
  }

  lemma DivLowerBound(x: int, d: int, k: nat)
    requires x >= 0 && d > 0 && k * d <= x
    ensures k <= x / d
  {
    if x / d < k {
      ProductMonotone(d, x / d + 1, k);
    }
  }

  // Backoff.

  /** What the policy promises: doubling from the base at the threshold, capped. */
  function IdealBackoff(cfg: Config, failures: int): int
  {
    var exp := failures - cfg.backoffThresh;
    if exp < 0 then 0
    else if cfg.backoffBase * Pow2(exp) > cfg.backoffMax then cfg.backoffMax
    else cfg.backoffBase * Pow2(exp)
  }

  lemma {:induction false} Pow2Monotone(m: nat, n: nat)
    requires m <= n
    ensures 1 <= Pow2(m) <= Pow2(n)
    decreases n
  {
    if m < n {
      Pow2Monotone(m, n - 1);
    } else if m > 0 {
      Pow2Monotone(m - 1, m - 1);
    }
  }

  lemma ScaledMonotone(base: int, m: nat, n: nat)
    requires base >= 0 && m <= n
    ensures base * Pow2(m) <= base * Pow2(n)
  {
    Pow2Monotone(m, n);
    ProductMonotone(base, Pow2(m), Pow2(n));
  }

  /** The base at the threshold, doubled by every further failure, up to the cap; nothing before the threshold. */
  lemma IdealBackoffDoubles(cfg: Config, f: int)
    requires cfg.backoffBase >= 0 && cfg.backoffMax >= 0
    ensures f < cfg.backoffThresh ==> IdealBackoff(cfg, f) == 0
    ensures f == cfg.backoffThresh ==>
              IdealBackoff(cfg, f) == if cfg.backoffBase < cfg.backoffMax then cfg.backoffBase else cfg.backoffMax
    ensures f >= cfg.backoffThresh ==>
              var twice := 2 * IdealBackoff(cfg, f);
              IdealBackoff(cfg, f + 1) == if twice < cfg.backoffMax then twice else cfg.backoffMax
  {
    if f >= cfg.backoffThresh {
      var b, p := cfg.backoffBase, Pow2(f - cfg.backoffThresh);
      assert Pow2(f + 1 - cfg.backoffThresh) == 2 * p;
      assert b * (2 * p) == 2 * (b * p);
      ScaledMonotone(b, 0, f - cfg.backoffThresh);
    }
  }

  /** The shortcut for large exponents is right exactly when doubling has hit the cap by then. */
  lemma BackoffIsIdeal(cfg: Config)
    requires cfg.backoffBase >= 0
    ensures (forall f: int :: BackoffFor(cfg, f) == IdealBackoff(cfg, f))
            <==> cfg.backoffMax <= cfg.backoffBase * Pow2(33)
  {
    if cfg.backoffMax <= cfg.backoffBase * Pow2(33) {
      forall f: int ensures BackoffFor(cfg, f) == IdealBackoff(cfg, f) {
        if f - cfg.backoffThresh > 32 {
          ScaledMonotone(cfg.backoffBase, 33, f - cfg.backoffThresh);
        }
      }
    } else {
      assert BackoffFor(cfg, cfg.backoffThresh + 33) != IdealBackoff(cfg, cfg.backoffThresh + 33);
    }
  }

  lemma BackoffMonotone(cfg: Config, f: int, g: int)
    requires cfg.backoffBase >= 0 && cfg.backoffMax >= 0 && f <= g
    ensures 0 <= BackoffFor(cfg, f) <= BackoffFor(cfg, g) <= cfg.backoffMax
  {
    var e := f - cfg.backoffThresh;
    if e >= 0 {
      ScaledMonotone(cfg.backoffBase, e, g - cfg.backoffThresh);
      Pow2Monotone(0, e);
      ProductMonotone(cfg.backoffBase, 0, Pow2(e));
    }
  }

  lemma {:induction false} Pow2Add(m: nat, n: nat)
    ensures Pow2(m + n) == Pow2(m) * Pow2(n)
  {
    if m > 0 {
      Pow2Add(m - 1, n);
    }
  }

  lemma SmallBaseFits(base: int, exp: nat)
    requires 0 <= base < Pow2(31) && exp <= 32
    ensures base * Pow2(exp) < Pow2(63)
  {
    Pow2Add(31, 32);
    Pow2Monotone(0, 32);
    ScaledMonotone(base, exp, 32);
    ProductStrict(base, Pow2(31), Pow2(32));
  }

  lemma LargeBaseOverflows(base: int)
    requires base >= Pow2(31)
    ensures base * Pow2(32) >= Pow2(63)
  {
    Pow2Add(31, 32);
    Pow2Monotone(0, 32);
    ProductMonotone(Pow2(32), Pow2(31), base);
  }

  /** Under the exponent guard no product leaves the signed 64-bit range, exactly for bases below 2^31. */
  lemma BackoffFitsInt64(cfg: Config)
    requires cfg.backoffBase >= 0
    ensures (forall exp: nat :: exp <= 32 ==> cfg.backoffBase * Pow2(exp) < Pow2(63)) <==> cfg.backoffBase < Pow2(31)
  {
    if cfg.backoffBase < Pow2(31) {
      forall exp: nat | exp <= 32 ensures cfg.backoffBase * Pow2(exp) < Pow2(63) {
        SmallBaseFits(cfg.backoffBase, exp);
      }
    } else {
      LargeBaseOverflows(cfg.backoffBase);
    }
  }

  lemma ProductStrict(a: int, b: int, c: int)
    requires a < b && c > 0
    ensures a * c < b * c
  {
  }

  /**
   The wait a refusal reports ends at an admission. It is not too long either, every earlier moment
   being refused too, exactly when the key is locked out or its backoff fits the reset window.
   */
  lemma WaitIsExact(cfg: Config, st: Attempt, now: int)
    requires !AllowAnswer(cfg, Some(st), now).ok
    ensures var w := AllowAnswer(cfg, Some(st), now).wait;
            && w > 0
            && AllowAnswer(cfg, Some(st), now + w).ok
            && ((forall t :: now <= t < now + w ==> AllowAnswer(cfg, Some(st), t) == Answer(false, now + w - t))
                <==> Locked(st, now) || BackoffFor(cfg, st.failures) <= cfg.resetWindow + 1)
  {
    var w := AllowAnswer(cfg, Some(st), now).wait;
    if !Locked(st, now) && BackoffFor(cfg, st.failures) > cfg.resetWindow + 1 {
      assert AllowAnswer(cfg, Some(st), now + w - 1).ok;
    }
  }

  // The decision, told from the entry.

  /** The longest the policy makes a key wait: until the lockout ends, or until the ideal backoff has run. */
  lemma AllowDecides(cfg: Config, st: Attempt, now: int)
    requires cfg.backoffBase >= 0 && cfg.backoffMax <= cfg.backoffBase * Pow2(33)
    ensures var a := AllowAnswer(cfg, Some(st), now);
            && (!a.ok <==>
                || (st.lockedUntil.Some? && now < st.lockedUntil.value)
                || (st.lockedUntil.None? && now - st.lastFailure <= cfg.resetWindow
                    && st.failures >= cfg.backoffThresh && now < st.lastFailure + IdealBackoff(cfg, st.failures)))
            && (a.ok ==> a.wait == 0)
            && (!a.ok ==> a.wait == (if st.lockedUntil.Some? then st.lockedUntil.value
                                     else st.lastFailure + IdealBackoff(cfg, st.failures)) - now)
  {
    BackoffIsIdeal(cfg);
  }

  lemma UnknownKeyIsAllowed(cfg: Config, now: int)
    ensures AllowAnswer(cfg, None, now) == Answer(true, 0)
  {
  }

  /** What an Allow leaves: it forgets a key whose lockout is over or that has been idle too long, and nothing else. */
  lemma AllowForgetsExactly(cfg: Config, st: Attempt, now: int)
    ensures AllowEntry(cfg, Some(st), now) ==
            if || (st.lockedUntil.Some? && st.lockedUntil.value <= now)
               || (st.lockedUntil.None? && now - st.lastFailure > cfg.resetWindow)
            then None else Some(st)
    ensures AllowEntry(cfg, None, now) == None
  {
  }

  /** What a failure leaves: one more in the streak, or the first of a new one, and a lockout at the ceiling. */
  lemma FailureCountsExactly(cfg: Config, st: Attempt, now: int)
    ensures var f := FailEntry(cfg, Some(st), now);
            var anew := (st.lockedUntil.Some? && st.lockedUntil.value < now) || now - st.lastFailure > cfg.resetWindow;
            && f.lastFailure == now
            && f.failures == (if anew then 1 else st.failures + 1)
            && (f.failures >= cfg.maxFailures ==> f.lockedUntil == Some(now + cfg.lockout))
            && (f.failures < cfg.maxFailures ==> f.lockedUntil == if anew then None else st.lockedUntil)
    ensures FailEntry(cfg, None, now) == Attempt(1, now, if cfg.maxFailures <= 1 then Some(now + cfg.lockout) else None)
  {
  }

  // The decision, told from the operations alone.

  /** The failures of `key` in a row: since the last success, and with no pause longer than the reset window. */
  function Streak(cfg: Config, ops: seq<Op>, key: Key): Option<(nat, int)>
  {
    if ops == [] then None
    else
      var init, op := ops[..|ops| - 1], ops[|ops| - 1];
      var before := Streak(cfg, init, key);
      if op.key != key then before
      else
        match op
        case Allow(_, _) => before
        case RecordSuccess(_, _) => None
        case RecordFailure(_, at) =>
          Some((if before.Some? && at - before.value.1 <= cfg.resetWindow then before.value.0 + 1 else 1, at))
  }

  /** No streak of `key` has reached the ceiling. */
  predicate NeverLocked(cfg: Config, ops: seq<Op>, key: Key)
  {
    ops == [] ||
    (NeverLocked(cfg, ops[..|ops| - 1], key)
     && (Streak(cfg, ops, key).Some? ==> Streak(cfg, ops, key).value.0 < cfg.maxFailures))
  }

  /** The table holds exactly the streak, unless it is too old to matter. */
  ghost predicate HoldsStreak(cfg: Config, e: Option<Attempt>, streak: Option<(nat, int)>, now: int)
  {
    if streak.None? then e.None?
    else
      && streak.value.1 <= now
      && (e == Some(Attempt(streak.value.0, streak.value.1, None))
          || (e.None? && now - streak.value.1 > cfg.resetWindow))
  }

  lemma StreakStep(cfg: Config, m: Table, ops: seq<Op>, key: Key)
    requires cfg.enabled && ops != [] && NeverLocked(cfg, ops, key)
    requires HoldsStreak(cfg, Lookup(m, key), Streak(cfg, ops[..|ops| - 1], key), ops[|ops| - 1].at)
    ensures HoldsStreak(cfg, Lookup(Step(cfg, true, m, ops[|ops| - 1]), key), Streak(cfg, ops, key), ops[|ops| - 1].at)
  {
    var op := ops[|ops| - 1];
    if op.RecordFailure? { BeforeFailureEntry(cfg, true, m, op.at, key); }
  }

  lemma {:induction false} TableHoldsStreak(cfg: Config, ops: seq<Op>, key: Key, now: int)
    requires cfg.enabled && ClockOrdered(ops) && NeverLocked(cfg, ops, key)
    requires ops != [] ==> ops[|ops| - 1].at <= now
    ensures HoldsStreak(cfg, Lookup(Run(cfg, true, ops), key), Streak(cfg, ops, key), now)
  {
    if ops != [] {
      TableHoldsStreak(cfg, ops[..|ops| - 1], key, ops[|ops| - 1].at);
      StreakStep(cfg, Run(cfg, true, ops[..|ops| - 1]), ops, key);
    }
  }

  /**
   Backoff over runs. Short of a lockout, whatever other keys do and whatever is pruned, a key is
   refused exactly while its streak of `n` failures is at the threshold, no older than the reset window,
   and less than the ideal backoff for `n` old; the wait is the rest of that backoff.
   */
  lemma BackoffOverRuns(cfg: Config, ops: seq<Op>, key: Key, now: int)
    requires cfg.enabled && ClockOrdered(ops) && NeverLocked(cfg, ops, key)
    requires ops != [] ==> ops[|ops| - 1].at <= now
    requires cfg.backoffBase >= 0 && cfg.backoffMax <= cfg.backoffBase * Pow2(33)
    ensures var a := AnswerTo(cfg, Run(cfg, true, ops), Allow(key, now));
            var streak := Streak(cfg, ops, key);
            && (!a.ok <==>
                streak.Some? && streak.value.0 >= cfg.backoffThresh && now - streak.value.1 <= cfg.resetWindow
                && now < streak.value.1 + IdealBackoff(cfg, streak.value.0))
            && (a.wait == if a.ok || streak.None? then 0 else streak.value.1 + IdealBackoff(cfg, streak.value.0) - now)
  {
    TableHoldsStreak(cfg, ops, key, now);
    var e := Lookup(Run(cfg, true, ops), key);
    if e.Some? { AllowDecides(cfg, e.value, now); }
  }

  ghost predicate LockedUntil(cfg: Config, e: Option<Attempt>, until: int)
  {
    && e.Some? && e.value.failures >= cfg.maxFailures && e.value.lastFailure >= until - cfg.lockout
    && e.value.lockedUntil.Some? && until <= e.value.lockedUntil.value
  }

  /**
   A failure that arrives during a lockout renews it, and does not lift it, exactly when the lockout is
   no longer than the reset window: a longer one counts as idleness before it is over.
   */
  lemma LockoutSurvivesExactly(cfg: Config)
    requires cfg.maxFailures > 1 && cfg.lockout > 0
    ensures (forall st: Attempt, now: int ::
               LockedUntil(cfg, Some(st), st.lastFailure + cfg.lockout)
               && st.lastFailure <= now < st.lastFailure + cfg.lockout ==>
                 LockedUntil(cfg, Some(FailEntry(cfg, Some(st), now)), st.lastFailure + cfg.lockout))
            <==> cfg.lockout <= cfg.resetWindow + 1
  {
    if cfg.lockout > cfg.resetWindow + 1 {
      var st, now := Attempt(cfg.maxFailures, 0, Some(cfg.lockout)), cfg.lockout - 1;
      assert LockedUntil(cfg, Some(st), st.lastFailure + cfg.lockout);
      assert FailEntry(cfg, Some(st), now).failures == 1;
      assert !LockedUntil(cfg, Some(FailEntry(cfg, Some(st), now)), st.lastFailure + cfg.lockout);
    }
  }

  lemma LockoutStep(cfg: Config, m: Table, op: Op, key: Key, until: int)
    requires cfg.lockout <= cfg.resetWindow + 1
    requires cfg.enabled && LockedUntil(cfg, Lookup(m, key), until)
    requires until - cfg.lockout <= op.at < until && !(op.RecordSuccess? && op.key == key)
    ensures LockedUntil(cfg, Lookup(Step(cfg, true, m, op), key), until)
  {
    if op.RecordFailure? { BeforeFailureEntry(cfg, true, m, op.at, key); }
  }

  lemma {:induction false} LockoutHolds(cfg: Config, ops: seq<Op>, key: Key, n: nat, until: int)
    requires cfg.lockout <= cfg.resetWindow + 1
    requires cfg.enabled && n <= |ops| && LockedUntil(cfg, Lookup(Run(cfg, true, ops[..n]), key), until)
    requires forall i :: n <= i < |ops| ==> until - cfg.lockout <= ops[i].at < until
    requires forall i :: n <= i < |ops| ==> !(ops[i].RecordSuccess? && ops[i].key == key)
    ensures LockedUntil(cfg, Lookup(Run(cfg, true, ops), key), until)
  {
    if n == |ops| {
      assert ops[..n] == ops;
    } else {
      var init := ops[..|ops| - 1];
      assert init[..n] == ops[..n];
      LockoutHolds(cfg, init, key, n, until);
      LockoutStep(cfg, Run(cfg, true, init), ops[|ops| - 1], key, until);
    }
  }

  lemma LockoutStarts(cfg: Config, ops: seq<Op>, key: Key)
    requires cfg.enabled && ops != [] && ops[|ops| - 1].RecordFailure? && ops[|ops| - 1].key == key
    requires var e := Lookup(Run(cfg, true, ops), key); e.Some? && e.value.failures >= cfg.maxFailures
    ensures LockedUntil(cfg, Lookup(Run(cfg, true, ops), key), ops[|ops| - 1].at + cfg.lockout)
  {
  }

  lemma LockedIsRefused(cfg: Config, e: Option<Attempt>, until: int, now: int)
    requires LockedUntil(cfg, e, until) && now < until
    ensures !AllowAnswer(cfg, e, now).ok && AllowAnswer(cfg, e, now).wait >= until - now
  {
  }

  lemma LaterOpsWithin(cfg: Config, ops: seq<Op>, n: nat, now: int)
    requires ClockOrdered(ops) && n < |ops| && ops[|ops| - 1].at <= now < ops[n].at + cfg.lockout
    ensures forall i :: n < i < |ops| ==> ops[n].at <= ops[i].at < ops[n].at + cfg.lockout
  {
    forall i | n < i < |ops| ensures ops[n].at <= ops[i].at <= ops[|ops| - 1].at {}
  }

  /**
   Lockout over runs. After a failure that brings the streak to the ceiling, every Allow of the key is
   refused until the lockout has run, whatever else happens short of a success; each more failure
   meanwhile only makes it longer.
   */
  lemma LockoutOverRuns(cfg: Config, ops: seq<Op>, key: Key, n: nat, now: int)
    requires cfg.lockout <= cfg.resetWindow + 1
    requires cfg.enabled && ClockOrdered(ops) && n < |ops| && ops[n].RecordFailure? && ops[n].key == key
    requires var e := Lookup(Run(cfg, true, ops[..n + 1]), key); e.Some? && e.value.failures >= cfg.maxFailures
    requires ops[|ops| - 1].at <= now < ops[n].at + cfg.lockout
    requires forall i :: n < i < |ops| ==> !(ops[i].RecordSuccess? && ops[i].key == key)
    ensures var a := AnswerTo(cfg, Run(cfg, true, ops), Allow(key, now));
            !a.ok && a.wait >= ops[n].at + cfg.lockout - now
  {
    LockoutStarts(cfg, ops[..n + 1], key);
    LaterOpsWithin(cfg, ops, n, now);
    LockoutHolds(cfg, ops, key, n + 1, ops[n].at + cfg.lockout);
    LockedIsRefused(cfg, Lookup(Run(cfg, true, ops), key), ops[n].at + cfg.lockout, now);
  }

  /** The production policy meets every condition above. */
  lemma DefaultPolicyIsSound()
    ensures DEFAULT.backoffMax <= DEFAULT.backoffBase * Pow2(33)
    ensures DEFAULT.backoffBase < Pow2(31)
    ensures DEFAULT.backoffMax <= DEFAULT.resetWindow
    ensures DEFAULT.lockout <= DEFAULT.resetWindow + 1
    ensures Pause(DEFAULT) == 15 * MINUTE
  {
    Pow2Add(3, 30);
    Pow2Monotone(0, 30);
    assert Pow2(5) == 32;
    Pow2Add(5, 26);
    Pow2Add(5, 21);
    Pow2Add(5, 16);
    Pow2Add(5, 11);
    Pow2Add(5, 6);
    Pow2Add(5, 1);
    ProductMonotone(SECOND, 32, Pow2(33));
  }

  // The limiter as the program stores it.

  class LoginRateLimiter {
    const cfg: Config
    var attempts: Table

    constructor (cfg: Config)
      ensures this.cfg == cfg && attempts == map[]
    {
      this.cfg, attempts := cfg, map[];
    }

    method Allow(key: Key, now: int) returns (ok: bool, wait: int)
      modifies this
      ensures Answer(ok, wait) == AnswerTo(cfg, old(attempts), Op.Allow(key, now))
      ensures attempts == Step(cfg, true, old(attempts), Op.Allow(key, now))
    {
      if !cfg.enabled || key !in attempts {
        return true, 0;
      }
      var st := attempts[key];
      if st.lockedUntil.Some? && now < st.lockedUntil.value {
        return false, st.lockedUntil.value - now;
      }
      if st.lockedUntil.Some? || now - st.lastFailure > cfg.resetWindow {
        attempts := attempts - {key};
        return true, 0;
      }
      if st.failures >= cfg.backoffThresh {
        wait := st.lastFailure + BackoffFor(cfg, st.failures) - now;
        if wait > 0 {
          return false, wait;
        }
      }
      return true, 0;
    }

    method RecordFailure(key: Key, now: int)
      modifies this
      ensures attempts == Step(cfg, true, old(attempts), Op.RecordFailure(key, now))
    {
      if !cfg.enabled {
        return;
      }
      if |attempts| > PRUNE_THRESHOLD {
        PruneLocked(now);
      }
      var st;
      if key in attempts {
        st := attempts[key];
        if (st.lockedUntil.Some? && now > st.lockedUntil.value) || now - st.lastFailure > cfg.resetWindow {
          st := st.(failures := 0, lockedUntil := None);
        }
      } else {
        st := Attempt(0, now, None);
      }
      st := st.(failures := st.failures + 1, lastFailure := now);
      if st.failures >= cfg.maxFailures {
        st := st.(lockedUntil := Some(now + cfg.lockout));
      }
      attempts := attempts[key := st];
    }

    method RecordSuccess(key: Key, now: int)
      modifies this
      ensures attempts == Step(cfg, true, old(attempts), Op.RecordSuccess(key, now))
      ensures attempts == if cfg.enabled then old(attempts) - {key} else old(attempts)
    {
      if cfg.enabled {
        attempts := attempts - {key};
      }
    }

    method PruneLocked(now: int)
      modifies this
      ensures attempts == Pruned(cfg, old(attempts), now)
      ensures forall k :: k in attempts <==>
                && k in old(attempts)
                && (|| (old(attempts)[k].lockedUntil.Some? && now < old(attempts)[k].lockedUntil.value)
                    || now - old(attempts)[k].lastFailure <= cfg.resetWindow)
      ensures forall k :: k in attempts ==> attempts[k] == old(attempts)[k]
    {
      var todo := attempts.Keys;
      while todo != {}
        invariant todo <= attempts.Keys <= old(attempts).Keys
        invariant forall k :: k in attempts ==> attempts[k] == old(attempts)[k]
        invariant forall k :: k in old(attempts) && k !in todo ==>
                    (k in attempts <==> !Stale(cfg, old(attempts)[k], now))
        decreases todo
      {
        var k :| k in todo;
        todo := todo - {k};
        var st := attempts[k];
        if !Locked(st, now) && now - st.lastFailure > cfg.resetWindow {
          attempts := attempts - {k};
        }
      }
    }
  }
}
