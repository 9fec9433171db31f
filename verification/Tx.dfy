/**
 Bounded transactional retry (go/store/tx.go). A database is any state `S`; an attempt says what the
 outside world does with it: whether the caller's context is cancelled while backing off, what other
 sessions commit before the attempt begins, and where, if anywhere, the attempt fails. The body works
 on the transaction's own copy; rolling back, and a commit that fails, discard that copy.
 */
module Tx {
  import opened Prelude

  const MAX_TX_ATTEMPTS := 4
  const DEADLOCK := 1213
  const LOCK_WAIT_TIMEOUT := 1205

  datatype DbError = MySQL(number: int) | Opaque | Wrapped(cause: DbError)

  /** Looks through any number of wrappers for the driver's error. */
  function Retryable(e: DbError): bool
  {
    match e
    case MySQL(n) => n == DEADLOCK || n == LOCK_WAIT_TIMEOUT
    case Opaque => false
    case Wrapped(cause) => Retryable(cause)
  }

  function Wrap(e: DbError, times: nat): DbError
  {
    if times == 0 then e else Wrapped(Wrap(e, times - 1))
  }

  /** Wrapping never hides a transient failure, nor makes one up. */
  lemma {:induction false} WrappingIsTransparent(e: DbError, times: nat)
    ensures Retryable(Wrap(e, times)) == Retryable(e)
  {
    if times > 0 {
      WrappingIsTransparent(e, times - 1);
    }
  }

  /** A deadlock or a lock wait that timed out, as the driver numbers them, under `n` wrappers. */
  predicate TransientUnder(e: DbError, n: nat)
  {
    e == Wrap(MySQL(1213), n) || e == Wrap(MySQL(1205), n)
  }

  /** Retried are exactly these, under any wrapping. */
  lemma {:induction false} RetriesExactly(e: DbError)
    ensures Retryable(e) <==> exists n: nat :: TransientUnder(e, n)
  {
    match e
    case MySQL(number) =>
      assert number == 1213 || number == 1205 ==> TransientUnder(e, 0);
    case Opaque =>
    case Wrapped(cause) =>
      RetriesExactly(cause);
      forall n: nat ensures TransientUnder(cause, n) <==> TransientUnder(e, n + 1) {}
      if n: nat :| TransientUnder(e, n) { assert TransientUnder(cause, n - 1); }
  }

  datatype TxResult<+S> = Worked(state: S) | Broke(error: DbError)

  datatype Attempt<!S> = Attempt(
    cancelled: bool, others: S -> S, beginError: Option<DbError>, body: S -> TxResult<S>, commitError: Option<DbError>)

  datatype TxError = Cancelled | Failed(error: DbError)

  /** The database as the other sessions have left it when attempt number `n` is over. */
  function OthersUpTo<S>(db: S, script: seq<Attempt<S>>, n: nat): S
    requires n <= |script|
  {
    if n == 0 then db else script[n - 1].others(OthersUpTo(db, script, n - 1))
  }

  /** How attempt `n` ends, if it is reached with only the others' writes in the database. */
  function ErrorOf<S>(db: S, script: seq<Attempt<S>>, n: nat): Option<DbError>
    requires n < |script|
  {
    var a := script[n];
    if a.beginError.Some? then a.beginError
    else
      match a.body(OthersUpTo(db, script, n + 1))
      case Broke(e) => Some(e)
      case Worked(_) => a.commitError
  }

  /** An attempt fails where it cannot begin, where its body breaks, or where it cannot commit, in this order. */
  lemma AttemptFailsExactly<S>(db: S, script: seq<Attempt<S>>, n: nat)
    requires n < |script|
    ensures var a, r := script[n], script[n].body(OthersUpTo(db, script, n + 1));
            && (a.beginError.Some? ==> ErrorOf(db, script, n) == a.beginError)
            && (a.beginError.None? && r.Broke? ==> ErrorOf(db, script, n) == Some(r.error))
            && (a.beginError.None? && r.Worked? ==> ErrorOf(db, script, n) == a.commitError)
  {
  }

  /** An attempt after which the loop goes round again. */
  predicate RetriedAfter<S>(db: S, script: seq<Attempt<S>>, n: nat)
    requires n < |script|
  {
    && !(n > 0 && script[n].cancelled)
    && script[n].beginError.None?
    && ErrorOf(db, script, n).Some? && Retryable(ErrorOf(db, script, n).value)
  }

  /** Attempt `n` is reached, not cancelled, and fails nowhere. */
  ghost predicate CommitsAt<S>(db: S, script: seq<Attempt<S>>, n: nat)
    requires n < |script|
  {
    && !(n > 0 && script[n].cancelled) && ErrorOf(db, script, n).None?
    && forall m :: 0 <= m < n ==> RetriedAfter(db, script, m)
  }

  /** Once the loop stops at an attempt that does not commit, no attempt does. */
  lemma NothingCommits<S>(db: S, script: seq<Attempt<S>>, made: nat)
    requires 1 <= made <= |script|
    requires forall n :: 0 <= n < made - 1 ==> RetriedAfter(db, script, n)
    requires ErrorOf(db, script, made - 1).Some? || (made > 1 && script[made - 1].cancelled)
    requires made == |script| || !RetriedAfter(db, script, made - 1)
    ensures !exists n: nat :: n < |script| && CommitsAt(db, script, n)
  {
    forall n: nat | n < |script| ensures !CommitsAt(db, script, n) {
      if n < made - 1 { assert RetriedAfter(db, script, n); }
    }
  }

  /**
   Success leaves the others' writes and the work of exactly one attempt, the last one made; an error
   leaves the others' writes alone. Attempts before the last failed transiently, there are at most
   four, and an error is given up on only when it is final or the attempts have run out. It succeeds
   exactly when some attempt is reached and commits.
   */
  method RunInTx<S>(db: S, script: seq<Attempt<S>>) returns (db': S, err: Option<TxError>, made: nat)
    requires |script| == MAX_TX_ATTEMPTS
    ensures 1 <= made <= MAX_TX_ATTEMPTS
    ensures forall n :: 0 <= n < made - 1 ==> RetriedAfter(db, script, n)
    ensures err.None? <==> exists n: nat :: n < |script| && CommitsAt(db, script, n)
    ensures err.None? ==>
              var before := OthersUpTo(db, script, made);
              && ErrorOf(db, script, made - 1).None? && !(made > 1 && script[made - 1].cancelled)
              && script[made - 1].body(before) == Worked(db')
    ensures err == Some(Cancelled) ==>
              made > 1 && script[made - 1].cancelled && db' == OthersUpTo(db, script, made - 1)
    ensures err.Some? && err.value.Failed? ==>
              && db' == OthersUpTo(db, script, made)
              && !(made > 1 && script[made - 1].cancelled)
              && Some(err.value.error) == ErrorOf(db, script, made - 1)
              && (made < MAX_TX_ATTEMPTS ==> script[made - 1].beginError.Some? || !Retryable(err.value.error))
  {
    db' := db;
    err := None;
    made := 0;
    for attempt := 0 to MAX_TX_ATTEMPTS
      invariant made == attempt
      invariant db' == OthersUpTo(db, script, attempt)
      invariant forall n :: 0 <= n < attempt ==> RetriedAfter(db, script, n)
      invariant if attempt == 0 then err.None? else
                  err.Some? && err.value.Failed? && Some(err.value.error) == ErrorOf(db, script, attempt - 1)
    {
      var a := script[attempt];
      made := attempt + 1;
      if attempt > 0 && a.cancelled {
        NothingCommits(db, script, made);
        return db', Some(Cancelled), made;
      }
      db' := a.others(db');
      if a.beginError.Some? {
        NothingCommits(db, script, made);
        return db', Some(Failed(a.beginError.value)), made;
      }
      match a.body(db') {
        case Broke(e) =>
          err := Some(Failed(e));
          if !Retryable(e) {
            NothingCommits(db, script, made);
            return;
          }
        case Worked(tx) =>
          if a.commitError.None? {
            assert CommitsAt(db, script, attempt);
            return tx, None, made;
          }
          err := Some(Failed(a.commitError.value));
          if !Retryable(a.commitError.value) {
            NothingCommits(db, script, made);
            return;
          }
      }
    }
    assert RetriedAfter(db, script, MAX_TX_ATTEMPTS - 1);
    NothingCommits(db, script, made);
  }
}
