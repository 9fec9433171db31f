/**
 The dashboard of an event (go/internal/metrics/metrics.go): one pass over the incidents fills the
 counters, and the buckets of each breakdown are then read off them.

 The rows behind the category, type, area and role charts are passed on unchanged and are not
 modelled. Times are integers, the average is a real, and the calendar day of a time is a parameter.
 */
module Metrics {
  import opened Prelude
  import Incident
  import IncidentRuns

  /** A row of the dashboard query. */
  datatype Info = Info(
    number: int, state: string, priority: int, created: int, closed: Option<int>,
    outcome: Option<string>, summary: Option<string>, isPrivate: bool)

  datatype Bucket = Bucket(key: string, count: nat)

  datatype Ref = Ref(number: int, summary: string)

  datatype Dashboard = Dashboard(
    total: nat, open: int, closed: nat, closedCount: nat, averageToClose: Option<real>,
    byState: seq<Bucket>, byPriority: seq<Bucket>, byDay: seq<Bucket>, followUps: seq<Ref>)

  const FOLLOW_UP := "Follow-Up Required"
  const CLOSED := "closed"
  const ALL_STATES := ["open", "closed"]
  const PRIORITIES := ["high", "normal", "low"]

  function PriorityKey(priority: int): string
  {
    if priority >= 4 then "high" else if priority <= 2 then "low" else "normal"
  }

  // Counting.

  function CountKey<T, K(==)>(s: seq<T>, key: T -> K, k: K): nat
  {
    if s == [] then 0 else CountKey(s[..|s| - 1], key, k) + if key(s[|s| - 1]) == k then 1 else 0
  }

  function CountIn<T, K(==)>(s: seq<T>, key: T -> K, keys: seq<K>): nat
  {
    if s == [] then 0 else CountIn(s[..|s| - 1], key, keys) + if key(s[|s| - 1]) in keys then 1 else 0
  }

  function SumOver<T, K(==)>(s: seq<T>, key: T -> K, keys: seq<K>): nat
  {
    if keys == [] then 0 else SumOver(s, key, keys[..|keys| - 1]) + CountKey(s, key, keys[|keys| - 1])
  }

  lemma {:induction false} CountInSplits<T, K>(s: seq<T>, key: T -> K, keys: seq<K>, k: K)
    requires k !in keys
    ensures CountIn(s, key, keys + [k]) == CountIn(s, key, keys) + CountKey(s, key, k)
  {
    if s != [] { CountInSplits(s[..|s| - 1], key, keys, k); }
  }

  lemma {:induction false} CountInNothing<T, K>(s: seq<T>, key: T -> K)
    ensures CountIn(s, key, []) == 0
  {
    if s != [] { CountInNothing(s[..|s| - 1], key); }
  }

  /** The counts of different keys add up to the number of elements with one of these keys. */
  lemma {:induction false} CountsAddUp<T, K>(s: seq<T>, key: T -> K, keys: seq<K>)
    requires NoDuplicates(keys)
    ensures SumOver(s, key, keys) == CountIn(s, key, keys)
  {
    if keys == [] {
      CountInNothing(s, key);
    } else {
      var init, last := keys[..|keys| - 1], keys[|keys| - 1];
      CountsAddUp(s, key, init);
      assert keys == init + [last];
      CountInSplits(s, key, init, last);
    }
  }

  lemma {:induction false} CountInAllExactly<T, K>(s: seq<T>, key: T -> K, keys: seq<K>)
    ensures CountIn(s, key, keys) <= |s|
    ensures CountIn(s, key, keys) == |s| <==> forall x :: x in s ==> key(x) in keys
  {
    if s != [] {
      var init, last := s[..|s| - 1], s[|s| - 1];
      CountInAllExactly(init, key, keys);
      assert s == init + [last];
      assert (forall x :: x in s ==> key(x) in keys) <==>
             (forall x :: x in init ==> key(x) in keys) && key(last) in keys by {
        assert forall x :: x in s <==> x in init || x == last;
      }
    }
  }

  lemma {:induction false} CountPositive<T, K>(s: seq<T>, key: T -> K, k: K)
    ensures CountKey(s, key, k) > 0 <==> exists x :: x in s && key(x) == k
  {
    if s != [] {
      var init, last := s[..|s| - 1], s[|s| - 1];
      CountPositive(init, key, k);
      assert s == init + [last];
      assert forall x :: x in s <==> x in init || x == last;
    }
  }

  // The order of dates, as texts.

  predicate Before(a: string, b: string)
  {
    b != [] && (a == [] || a[0] < b[0] || (a[0] == b[0] && Before(a[1..], b[1..])))
  }

  lemma {:induction false} BeforeIsTransitive(a: string, b: string, c: string)
    requires Before(a, b) && Before(b, c)
    ensures Before(a, c)
  {
    if a != [] && a[0] == b[0] && b[0] == c[0] { BeforeIsTransitive(a[1..], b[1..], c[1..]); }
  }

  lemma {:induction false} BeforeIsTotal(a: string, b: string)
    ensures Before(a, b) || a == b || Before(b, a)
  {
    if a != [] && b != [] && a[0] == b[0] {
      BeforeIsTotal(a[1..], b[1..]);
      assert a == [a[0]] + a[1..] && b == [b[0]] + b[1..];
    }
  }

  lemma {:induction false} BeforeIsStrict(a: string)
    ensures !Before(a, a)
  {
    if a != [] { BeforeIsStrict(a[1..]); }
  }

  /** Where two texts first differ, the smaller character comes first; a beginning comes before the whole. */
  predicate DiffersAt(a: string, b: string, i: nat)
  {
    i < |a| && i < |b| && a[..i] == b[..i] && a[i] < b[i]
  }

  lemma {:induction false} BeforeExactly(a: string, b: string)
    ensures Before(a, b) <==> a < b || exists i: nat :: DiffersAt(a, b, i)
  {
    if a == [] || b == [] {
    } else if a[0] != b[0] {
      assert a[0] < b[0] ==> DiffersAt(a, b, 0);
    } else {
      BeforeExactly(a[1..], b[1..]);
      assert a == [a[0]] + a[1..] && b == [b[0]] + b[1..];
      if i: nat :| DiffersAt(a[1..], b[1..], i) {
        assert a[..i + 1] == [a[0]] + a[1..][..i] && b[..i + 1] == [b[0]] + b[1..][..i];
        assert DiffersAt(a, b, i + 1);
      }
      if i: nat :| DiffersAt(a, b, i) {
        assert a[1..][..i - 1] == a[..i][1..] && b[1..][..i - 1] == b[..i][1..];
        assert DiffersAt(a[1..], b[1..], i - 1);
      }
    }
  }

  predicate Ascending(s: seq<Bucket>)
  {
    forall i, j :: 0 <= i < j < |s| ==> Before(s[i].key, s[j].key)
  }

  // The one pass.

  function StateOf(i: Info): string { i.state }

  function PriorityOf(i: Info): string { PriorityKey(i.priority) }

  function IsClosed(i: Info): bool { i.state == CLOSED }

  function HasCloseTime(i: Info): bool { i.closed.Some? }

  function TimeToClose(s: seq<Info>): int
  {
    if s == [] then 0
    else TimeToClose(s[..|s| - 1]) +
         var last := s[|s| - 1]; if last.closed.Some? then last.closed.value - last.created else 0
  }

  function FollowUp(i: Info): seq<Ref>
  {
    if i.outcome == Some(FOLLOW_UP) && i.state != CLOSED
    then [Ref(i.number, if i.isPrivate || i.summary.None? then "" else i.summary.value)]
    else []
  }

  /** The open incidents whose outcome asks for follow-up, in order; a private one without its summary. */
  function FollowUps(s: seq<Info>): seq<Ref>
  {
    if s == [] then [] else FollowUps(s[..|s| - 1]) + FollowUp(s[|s| - 1])
  }

  function Get<K>(counts: map<K, nat>, k: K): nat
  {
    if k in counts then counts[k] else 0
  }

  /** The counter map holds the count of every key, and has no entry for a key that does not occur. */
  ghost predicate Counts<T(!new), K(!new)>(counts: map<K, nat>, s: seq<T>, key: T -> K)
  {
    forall k :: Get(counts, k) == CountKey(s, key, k) && (k in counts ==> counts[k] > 0)
  }

  lemma CountOneMore<T(!new), K(!new)>(counts: map<K, nat>, s: seq<T>, key: T -> K, n: nat)
    requires n < |s| && Counts(counts, s[..n], key)
    ensures Counts(counts[key(s[n]) := Get(counts, key(s[n])) + 1], s[..n + 1], key)
  {
    assert s[..n + 1][..n] == s[..n];
  }

  /** The counters, totals and list of one pass. */
  datatype Tally = Tally(
    states: map<string, nat>, priorities: map<string, nat>, days: map<string, nat>,
    closed: nat, closedCount: nat, closeSum: int, followUps: seq<Ref>)

  ghost predicate TallyOf(t: Tally, s: seq<Info>, day: int -> string)
  {
    && Counts(t.states, s, StateOf) && Counts(t.priorities, s, PriorityOf)
    && Counts(t.days, s, (i: Info) => day(i.created))
    && t.closed == CountKey(s, IsClosed, true) && t.closedCount == CountKey(s, HasCloseTime, true)
    && t.closeSum == TimeToClose(s) && t.followUps == FollowUps(s)
  }

  function Bump(counts: map<string, nat>, k: string): map<string, nat>
  {
    counts[k := Get(counts, k) + 1]
  }

  function Tallied(t: Tally, i: Info, day: int -> string): Tally
  {
    Tally(Bump(t.states, i.state), Bump(t.priorities, PriorityKey(i.priority)), Bump(t.days, day(i.created)),
          t.closed + (if IsClosed(i) then 1 else 0), t.closedCount + (if HasCloseTime(i) then 1 else 0),
          t.closeSum + (if i.closed.Some? then i.closed.value - i.created else 0), t.followUps + FollowUp(i))
  }

  lemma TalliesOneMore(t: Tally, s: seq<Info>, n: nat, day: int -> string)
    requires n < |s| && TallyOf(t, s[..n], day)
    ensures TallyOf(Tallied(t, s[n], day), s[..n + 1], day)
  {
    CountOneMore(t.states, s, StateOf, n);
    CountOneMore(t.priorities, s, PriorityOf, n);
    CountOneMore(t.days, s, (i: Info) => day(i.created), n);
    assert s[..n + 1][..n] == s[..n];
  }

  method Pass(incidents: seq<Info>, day: int -> string) returns (t: Tally)
    ensures TallyOf(t, incidents, day)
  {
    t := Tally(map[], map[], map[], 0, 0, 0, []);
    for n := 0 to |incidents|
      invariant TallyOf(t, incidents[..n], day)
    {
      TalliesOneMore(t, incidents, n, day);
      t := Count(t, incidents[n], day);
    }
    assert incidents[..|incidents|] == incidents;
  }

  /** The body of the loop. */
  method Count(before: Tally, inc: Info, day: int -> string) returns (t: Tally)
    ensures t == Tallied(before, inc, day)
  {
    t := before.(states := Bump(before.states, inc.state));
    if inc.state == CLOSED { t := t.(closed := t.closed + 1); }
    t := t.(priorities := Bump(t.priorities, PriorityKey(inc.priority)));
    t := t.(days := Bump(t.days, day(inc.created)));
    if inc.closed.Some? {
      t := t.(closedCount := t.closedCount + 1, closeSum := t.closeSum + inc.closed.value - inc.created);
    }
    if inc.outcome.Some? && inc.outcome.value == FOLLOW_UP && inc.state != CLOSED {
      var summary := if inc.summary.Some? then inc.summary.value else "";
      if inc.isPrivate { summary := ""; }
      t := t.(followUps := t.followUps + [Ref(inc.number, summary)]);
    }
  }

  // The buckets.

  method ReadBuckets(counts: map<string, nat>, keys: seq<string>) returns (r: seq<Bucket>)
    ensures |r| == |keys| && forall i :: 0 <= i < |r| ==> r[i] == Bucket(keys[i], Get(counts, keys[i]))
  {
    r := [];
    for i := 0 to |keys|
      invariant |r| == i && forall j :: 0 <= j < i ==> r[j] == Bucket(keys[j], Get(counts, keys[j]))
    {
      r := r + [Bucket(keys[i], Get(counts, keys[i]))];
    }
  }

  /** Puts a new key where it belongs. */
  method Insert(s: seq<Bucket>, b: Bucket) returns (r: seq<Bucket>)
    requires Ascending(s) && forall i :: 0 <= i < |s| ==> s[i].key != b.key
    ensures Ascending(r) && forall x :: x in r <==> x in s || x == b
  {
    var i := 0;
    while i < |s| && Before(s[i].key, b.key)
      invariant 0 <= i <= |s| && forall j :: 0 <= j < i ==> Before(s[j].key, b.key)
    {
      i := i + 1;
    }
    InsertedInOrder(s, b, i);
    InsertedMembers(s, b, i);
    r := s[..i] + [b] + s[i..];
  }

  lemma InsertedInOrder(s: seq<Bucket>, b: Bucket, i: nat)
    requires Ascending(s) && i <= |s| && forall j :: 0 <= j < i ==> Before(s[j].key, b.key)
    requires i < |s| ==> !Before(s[i].key, b.key) && s[i].key != b.key
    ensures Ascending(s[..i] + [b] + s[i..])
  {
    forall j | i <= j < |s| ensures Before(b.key, s[j].key) {
      BeforeIsTotal(s[i].key, b.key);
      if i < j { BeforeIsTransitive(b.key, s[i].key, s[j].key); }
    }
  }

  lemma InsertedMembers(s: seq<Bucket>, b: Bucket, i: nat)
    requires i <= |s|
    ensures forall x :: x in s[..i] + [b] + s[i..] <==> x in s || x == b
  {
    assert forall x :: x in s <==> x in s[..i] || x in s[i..] by { assert s == s[..i] + s[i..]; }
  }

  /** The buckets of a counter map, in ascending order of their keys. */
  method SortedBuckets(counts: map<string, nat>) returns (r: seq<Bucket>)
    ensures Ascending(r) && forall b :: b in r <==> b.key in counts && b.count == counts[b.key]
  {
    r := [];
    var rest := counts.Keys;
    while rest != {}
      invariant rest <= counts.Keys && Ascending(r)
      invariant forall b :: b in r <==> b.key in counts && b.key !in rest && b.count == counts[b.key]
    {
      var k :| k in rest;
      assert forall i :: 0 <= i < |r| ==> r[i] in r;
      r := Insert(r, Bucket(k, counts[k]));
      rest := rest - {k};
    }
  }

  function Total(buckets: seq<Bucket>): nat
  {
    if buckets == [] then 0 else Total(buckets[..|buckets| - 1]) + buckets[|buckets| - 1].count
  }

  function KeysOf(buckets: seq<Bucket>): (r: seq<string>)
    ensures |r| == |buckets| && forall i :: 0 <= i < |r| ==> r[i] == buckets[i].key
  {
    if buckets == [] then [] else KeysOf(buckets[..|buckets| - 1]) + [buckets[|buckets| - 1].key]
  }

  ghost predicate CountedBy<T>(buckets: seq<Bucket>, s: seq<T>, key: T -> string)
  {
    forall i :: 0 <= i < |buckets| ==> buckets[i].count == CountKey(s, key, buckets[i].key)
  }

  lemma SumOverOneMore<T, K>(s: seq<T>, key: T -> K, keys: seq<K>, k: K)
    ensures SumOver(s, key, keys + [k]) == SumOver(s, key, keys) + CountKey(s, key, k)
  {
    assert (keys + [k])[..|keys + [k]| - 1] == keys;
  }

  lemma {:induction false} TotalIsSum<T>(buckets: seq<Bucket>, s: seq<T>, key: T -> string)
    requires CountedBy(buckets, s, key)
    ensures Total(buckets) == SumOver(s, key, KeysOf(buckets))
  {
    if buckets != [] {
      var init := buckets[..|buckets| - 1];
      assert forall i :: 0 <= i < |init| ==> init[i] == buckets[i];
      TotalIsSum(init, s, key);
      SumOverOneMore(s, key, KeysOf(init), buckets[|buckets| - 1].key);
    }
  }

  /** Buckets with different keys add up to the whole exactly when they leave no element out. */
  lemma TotalIsWholeExactly<T>(buckets: seq<Bucket>, s: seq<T>, key: T -> string)
    requires CountedBy(buckets, s, key) && NoDuplicates(KeysOf(buckets))
    ensures Total(buckets) <= |s|
    ensures Total(buckets) == |s| <==> forall x :: x in s ==> key(x) in KeysOf(buckets)
  {
    TotalIsSum(buckets, s, key);
    CountsAddUp(s, key, KeysOf(buckets));
    CountInAllExactly(s, key, KeysOf(buckets));
  }

  lemma AscendingKeysDiffer(buckets: seq<Bucket>)
    requires Ascending(buckets)
    ensures NoDuplicates(KeysOf(buckets))
  {
    forall i, j | 0 <= i < j < |buckets| ensures buckets[i].key != buckets[j].key { BeforeIsStrict(buckets[i].key); }
  }

  // The dashboard.

  /** What the dashboard of these incidents shows, part by part. */
  ghost predicate Shows(d: Dashboard, s: seq<Info>, day: int -> string)
  {
    && d.total == |s| && d.open == d.total - d.closed
    && d.closed == CountKey(s, IsClosed, true) && d.closedCount == CountKey(s, HasCloseTime, true)
    && KeysOf(d.byState) == ALL_STATES && CountedBy(d.byState, s, StateOf)
    && KeysOf(d.byPriority) == PRIORITIES && CountedBy(d.byPriority, s, PriorityOf)
    && Ascending(d.byDay) && CountedBy(d.byDay, s, (i: Info) => day(i.created))
    && (forall i :: i in s ==> day(i.created) in KeysOf(d.byDay)) && (forall b :: b in d.byDay ==> b.count > 0)
    && d.followUps == FollowUps(s)
    && d.averageToClose == if d.closedCount == 0 then None else Some(TimeToClose(s) as real / d.closedCount as real)
  }

  lemma DaysAreShown(buckets: seq<Bucket>, days: map<string, nat>, s: seq<Info>, dayOf: Info -> string)
    requires Counts(days, s, dayOf)
    requires forall b :: b in buckets <==> b.key in days && b.count == days[b.key]
    ensures CountedBy(buckets, s, dayOf) && (forall b :: b in buckets ==> b.count > 0)
    ensures forall i :: i in s ==> dayOf(i) in KeysOf(buckets)
  {
    forall n | 0 <= n < |buckets| ensures buckets[n].count == CountKey(s, dayOf, buckets[n].key) {
      assert buckets[n] in buckets && buckets[n].count == Get(days, buckets[n].key);
    }
    forall i | i in s ensures dayOf(i) in KeysOf(buckets) {
      CountPositive(s, dayOf, dayOf(i));
      assert Get(days, dayOf(i)) > 0;
      var n :| 0 <= n < |buckets| && buckets[n] == Bucket(dayOf(i), days[dayOf(i)]);
      assert KeysOf(buckets)[n] == dayOf(i);
    }
  }

  lemma BucketsAreShown(buckets: seq<Bucket>, counts: map<string, nat>, keys: seq<string>, s: seq<Info>,
                        key: Info -> string)
    requires Counts(counts, s, key)
    requires |buckets| == |keys| && forall i :: 0 <= i < |keys| ==> buckets[i] == Bucket(keys[i], Get(counts, keys[i]))
    ensures KeysOf(buckets) == keys && CountedBy(buckets, s, key)
  {
  }

  predicate KeysAscending(keys: seq<string>)
  {
    forall i, j :: 0 <= i < j < |keys| ==> Before(keys[i], keys[j])
  }

  lemma LastIsNotAfter(a: seq<string>, b: seq<string>)
    requires KeysAscending(b) && a != [] && b != [] && a[|a| - 1] in b
    ensures a[|a| - 1] == b[|b| - 1] || Before(a[|a| - 1], b[|b| - 1])
  {
    var i :| 0 <= i < |b| && b[i] == a[|a| - 1];
    assert i < |b| - 1 ==> Before(b[i], b[|b| - 1]);
  }

  lemma AscendingInit(a: seq<string>, k: string)
    requires KeysAscending(a) && a != []
    ensures k in a[..|a| - 1] <==> k in a && k != a[|a| - 1]
  {
    var init, last := a[..|a| - 1], a[|a| - 1];
    assert a == init + [last];
    BeforeIsStrict(last);
    forall i | 0 <= i < |init| ensures init[i] != last { assert a[i] == init[i] && Before(a[i], last); }
  }

  lemma SameKeysEmpty(a: seq<string>, b: seq<string>)
    requires forall k :: k in a <==> k in b
    ensures a == [] <==> b == []
  {
    assert a != [] ==> a[0] in a;
    assert b != [] ==> b[0] in b;
  }

  /** There is only one ascending list of a given set of keys. */
  lemma {:induction false} AscendingKeysUnique(a: seq<string>, b: seq<string>)
    requires KeysAscending(a) && KeysAscending(b)
    requires forall k :: k in a <==> k in b
    ensures a == b
  {
    SameKeysEmpty(a, b);
    if a != [] {
      var x := a[|a| - 1];
      assert x in b;
      var y := b[|b| - 1];
      assert y in a;
      LastIsNotAfter(a, b);
      LastIsNotAfter(b, a);
      if Before(x, y) && Before(y, x) {
        BeforeIsTransitive(x, y, x);
        BeforeIsStrict(x);
      }
      var a', b' := a[..|a| - 1], b[..|b| - 1];
      forall k ensures k in a' <==> k in b' {
        AscendingInit(a, k);
        AscendingInit(b, k);
      }
      AscendingKeysUnique(a', b');
      assert a == a' + [x] && b == b' + [y];
    }
  }

  lemma BucketsDetermined<T>(a: seq<Bucket>, b: seq<Bucket>, s: seq<T>, key: T -> string)
    requires KeysOf(a) == KeysOf(b) && CountedBy(a, s, key) && CountedBy(b, s, key)
    ensures a == b
  {
    forall i | 0 <= i < |a| ensures a[i] == b[i] {
      assert KeysOf(a)[i] == a[i].key && KeysOf(b)[i] == b[i].key;
    }
  }

  lemma DayKeysAre(d: Dashboard, s: seq<Info>, day: int -> string, k: string)
    requires Shows(d, s, day)
    ensures k in KeysOf(d.byDay) <==> exists i :: i in s && day(i.created) == k
  {
    var dayOf := (i: Info) => day(i.created);
    if k in KeysOf(d.byDay) {
      var n :| 0 <= n < |d.byDay| && KeysOf(d.byDay)[n] == k;
      assert d.byDay[n] in d.byDay;
      CountPositive(s, dayOf, k);
      var i :| i in s && dayOf(i) == k;
      assert day(i.created) == k;
    }
  }

  /** The incidents determine the dashboard: what is shown leaves no part of it open. */
  lemma ShowsDetermines(d: Dashboard, d': Dashboard, s: seq<Info>, day: int -> string)
    requires Shows(d, s, day) && Shows(d', s, day)
    ensures d == d'
  {
    BucketsDetermined(d.byState, d'.byState, s, StateOf);
    BucketsDetermined(d.byPriority, d'.byPriority, s, PriorityOf);
    forall k ensures k in KeysOf(d.byDay) <==> k in KeysOf(d'.byDay) {
      DayKeysAre(d, s, day, k);
      DayKeysAre(d', s, day, k);
    }
    AscendingKeysUnique(KeysOf(d.byDay), KeysOf(d'.byDay));
    BucketsDetermined(d.byDay, d'.byDay, s, (i: Info) => day(i.created));
  }

  method BuildMetrics(incidents: seq<Info>, day: int -> string) returns (d: Dashboard)
    ensures Shows(d, incidents, day)
  {
    var t := Pass(incidents, day);
    var byState := ReadBuckets(t.states, ALL_STATES);
    var byPriority := ReadBuckets(t.priorities, PRIORITIES);
    var byDay := SortedBuckets(t.days);
    var average := if t.closedCount > 0 then Some(t.closeSum as real / t.closedCount as real) else None;
    BucketsAreShown(byState, t.states, ALL_STATES, incidents, StateOf);
    BucketsAreShown(byPriority, t.priorities, PRIORITIES, incidents, PriorityOf);
    DaysAreShown(byDay, t.days, incidents, (i: Info) => day(i.created));
    d := Dashboard(|incidents|, |incidents| - t.closed, t.closed, t.closedCount, average,
                   byState, byPriority, byDay, t.followUps);
  }

  /** PRIORITIES and days partition the incidents; states do so exactly when the state list knows them all. */
  lemma CountsSumToTotal(d: Dashboard, s: seq<Info>, day: int -> string)
    requires Shows(d, s, day)
    ensures Total(d.byPriority) == d.total && Total(d.byDay) == d.total
    ensures Total(d.byState) == d.total <==> forall i :: i in s ==> i.state in ALL_STATES
    ensures d.open + d.closed == d.total && 0 <= d.open
  {
    PrioritiesSum(d.byPriority, s);
    StatesSum(d.byState, s);
    DaysSum(d.byDay, s, (i: Info) => day(i.created));
    CountKeyAtMost(s, IsClosed, true);
  }

  lemma PrioritiesSum(buckets: seq<Bucket>, s: seq<Info>)
    requires KeysOf(buckets) == PRIORITIES && CountedBy(buckets, s, PriorityOf)
    ensures Total(buckets) == |s|
  {
    assert "high"[0] != "normal"[0] && "normal"[0] != "low"[0] && "high"[0] != "low"[0];
    assert PRIORITIES[0] in PRIORITIES && PRIORITIES[1] in PRIORITIES && PRIORITIES[2] in PRIORITIES;
    TotalIsWholeExactly(buckets, s, PriorityOf);
  }

  lemma StatesSum(buckets: seq<Bucket>, s: seq<Info>)
    requires KeysOf(buckets) == ALL_STATES && CountedBy(buckets, s, StateOf)
    ensures Total(buckets) == |s| <==> forall i :: i in s ==> i.state in ALL_STATES
  {
    assert "open"[0] != "closed"[0];
    TotalIsWholeExactly(buckets, s, StateOf);
  }

  lemma DaysSum(buckets: seq<Bucket>, s: seq<Info>, dayOf: Info -> string)
    requires Ascending(buckets) && CountedBy(buckets, s, dayOf) && forall i :: i in s ==> dayOf(i) in KeysOf(buckets)
    ensures Total(buckets) == |s|
  {
    AscendingKeysDiffer(buckets);
    TotalIsWholeExactly(buckets, s, dayOf);
  }

  lemma {:induction false} CountKeyAtMost<T, K>(s: seq<T>, key: T -> K, k: K)
    ensures CountKey(s, key, k) <= |s|
  {
    if s != [] { CountKeyAtMost(s[..|s| - 1], key, k); }
  }

  /** The incidents with the summaries of private ones removed. */
  function Erased(s: seq<Info>): seq<Info>
  {
    if s == [] then []
    else
      var last := s[|s| - 1];
      Erased(s[..|s| - 1]) + [if last.isPrivate then last.(summary := None) else last]
  }

  lemma {:induction false} CountsIgnoreSummaries<K>(s: seq<Info>, key: Info -> K, k: K)
    requires forall i: Info :: key(i.(summary := None)) == key(i)
    ensures CountKey(Erased(s), key, k) == CountKey(s, key, k)
  {
    if s != [] {
      CountsIgnoreSummaries(s[..|s| - 1], key, k);
      assert Erased(s)[..|Erased(s)| - 1] == Erased(s[..|s| - 1]);
    }
  }

  lemma {:induction false} FollowUpsIgnorePrivateSummaries(s: seq<Info>)
    ensures |Erased(s)| == |s| && FollowUps(Erased(s)) == FollowUps(s) && TimeToClose(Erased(s)) == TimeToClose(s)
  {
    if s != [] {
      FollowUpsIgnorePrivateSummaries(s[..|s| - 1]);
      assert Erased(s)[..|Erased(s)| - 1] == Erased(s[..|s| - 1]);
    }
  }

  lemma {:induction false} ErasedIn(s: seq<Info>, i: Info)
    ensures i in Erased(s) ==> exists j :: j in s && i == (if j.isPrivate then j.(summary := None) else j)
  {
    if s != [] {
      ErasedIn(s[..|s| - 1], i);
      assert s[|s| - 1] in s && forall j :: j in s[..|s| - 1] ==> j in s;
    }
  }

  lemma BucketsIgnoreSummaries(buckets: seq<Bucket>, s: seq<Info>, key: Info -> string)
    requires CountedBy(buckets, s, key) && forall i: Info :: key(i.(summary := None)) == key(i)
    ensures CountedBy(buckets, Erased(s), key)
  {
    forall n | 0 <= n < |buckets| ensures buckets[n].count == CountKey(Erased(s), key, buckets[n].key) {
      CountsIgnoreSummaries(s, key, buckets[n].key);
    }
  }

  lemma ErasedShows(d: Dashboard, s: seq<Info>, day: int -> string)
    requires Shows(d, s, day)
    ensures Shows(d, Erased(s), day)
  {
    FollowUpsIgnorePrivateSummaries(s);
    CountsIgnoreSummaries(s, IsClosed, true);
    CountsIgnoreSummaries(s, HasCloseTime, true);
    BucketsIgnoreSummaries(d.byState, s, StateOf);
    BucketsIgnoreSummaries(d.byPriority, s, PriorityOf);
    BucketsIgnoreSummaries(d.byDay, s, (i: Info) => day(i.created));
    forall i | i in Erased(s) ensures day(i.created) in KeysOf(d.byDay) { ErasedIn(s, i); }
  }

  /** Incidents that differ only in the summaries of private ones have the same dashboard. */
  lemma PrivateSummariesStayPrivate(d: Dashboard, d': Dashboard, s: seq<Info>, s': seq<Info>, day: int -> string)
    requires Shows(d, s, day) && Shows(d', s', day) && Erased(s) == Erased(s')
    ensures d == d'
  {
    ErasedShows(d, s, day);
    ErasedShows(d', s', day);
    ShowsDetermines(d, d', Erased(s), day);
  }

  // The dashboard, told from the incidents alone.

  function Having<T, K(==)>(s: seq<T>, key: T -> K, k: K): set<nat>
  {
    set i: nat | i < |s| && key(s[i]) == k
  }

  lemma {:induction false} CountIsSize<T, K>(s: seq<T>, key: T -> K, k: K)
    ensures CountKey(s, key, k) == |Having(s, key, k)|
  {
    if s == [] {
      assert Having(s, key, k) == {};
    } else {
      var init, last := s[..|s| - 1], |s| - 1;
      CountIsSize(init, key, k);
      assert forall i: nat :: i < last ==> init[i] == s[i];
      var more: set<nat> := if key(s[last]) == k then {last} else {};
      assert Having(s, key, k) == Having(init, key, k) + more;
    }
  }

  lemma PriorityKeyExactly(priority: int)
    ensures PriorityKey(priority) == "high" <==> priority >= 4
    ensures PriorityKey(priority) == "normal" <==> priority == 3
    ensures PriorityKey(priority) == "low" <==> priority <= 2
  {
    assert "high"[0] != "normal"[0] && "normal"[0] != "low"[0] && "high"[0] != "low"[0];
  }

  /** High are the priorities from 4 up, low those up to 2, normal is 3. */
  lemma PrioritiesShown(d: Dashboard, s: seq<Info>, day: int -> string)
    requires Shows(d, s, day)
    ensures |d.byPriority| == 3
    ensures d.byPriority[0] == Bucket("high", |set i: nat | i < |s| && s[i].priority >= 4|)
    ensures d.byPriority[1] == Bucket("normal", |set i: nat | i < |s| && s[i].priority == 3|)
    ensures d.byPriority[2] == Bucket("low", |set i: nat | i < |s| && s[i].priority <= 2|)
  {
    assert |KeysOf(d.byPriority)| == |PRIORITIES| == 3;
    var high := set i: nat | i < |s| && s[i].priority >= 4;
    forall i: nat ensures i in high <==> i < |s| && PriorityOf(s[i]) == "high" {
      if i < |s| { PriorityKeyExactly(s[i].priority); }
    }
    PriorityBucket(d.byPriority, s, 0, "high", high);
    var normal := set i: nat | i < |s| && s[i].priority == 3;
    forall i: nat ensures i in normal <==> i < |s| && PriorityOf(s[i]) == "normal" {
      if i < |s| { PriorityKeyExactly(s[i].priority); }
    }
    PriorityBucket(d.byPriority, s, 1, "normal", normal);
    var low := set i: nat | i < |s| && s[i].priority <= 2;
    forall i: nat ensures i in low <==> i < |s| && PriorityOf(s[i]) == "low" {
      if i < |s| { PriorityKeyExactly(s[i].priority); }
    }
    PriorityBucket(d.byPriority, s, 2, "low", low);
  }

  lemma PriorityBucket(buckets: seq<Bucket>, s: seq<Info>, n: nat, key: string, which: set<nat>)
    requires n < |buckets| && buckets[n].key == key && CountedBy(buckets, s, PriorityOf)
    requires forall i: nat :: i in which <==> i < |s| && PriorityOf(s[i]) == key
    ensures buckets[n] == Bucket(key, |which|)
  {
    CountIsSize(s, PriorityOf, key);
    forall i: nat ensures i in which <==> i in Having(s, PriorityOf, key) {}
    assert which == Having(s, PriorityOf, key);
  }

  lemma StateBucket(buckets: seq<Bucket>, s: seq<Info>, n: nat)
    requires n < |buckets| && CountedBy(buckets, s, StateOf)
    ensures buckets[n].count == |set i: nat | i < |s| && s[i].state == buckets[n].key|
  {
    CountIsSize(s, StateOf, buckets[n].key);
    assert (set i: nat | i < |s| && s[i].state == buckets[n].key) == Having(s, StateOf, buckets[n].key);
  }

  /** The states: an open and a closed bucket. */
  lemma StatesShown(d: Dashboard, s: seq<Info>, day: int -> string)
    requires Shows(d, s, day)
    ensures |d.byState| == 2
    ensures d.byState[0] == Bucket("open", |set i: nat | i < |s| && s[i].state == "open"|)
    ensures d.byState[1] == Bucket("closed", |set i: nat | i < |s| && s[i].state == "closed"|)
  {
    assert |KeysOf(d.byState)| == |ALL_STATES| == 2;
    StateBucket(d.byState, s, 0);
    StateBucket(d.byState, s, 1);
  }

  /** The totals: all, the closed ones, and those with a closing time. */
  lemma TotalsShown(d: Dashboard, s: seq<Info>, day: int -> string)
    requires Shows(d, s, day)
    ensures d.total == |s| && d.closed == |set i: nat | i < |s| && s[i].state == "closed"|
    ensures d.closedCount == |set i: nat | i < |s| && s[i].closed.Some?|
  {
    CountIsSize(s, IsClosed, true);
    CountIsSize(s, HasCloseTime, true);
    assert (set i: nat | i < |s| && s[i].state == "closed") == Having(s, IsClosed, true);
    assert (set i: nat | i < |s| && s[i].closed.Some?) == Having(s, HasCloseTime, true);
  }

  /** A day's bucket counts the incidents created on it. */
  lemma DaysShown(d: Dashboard, s: seq<Info>, day: int -> string, n: nat)
    requires Shows(d, s, day) && n < |d.byDay|
    ensures d.byDay[n].count == |set i: nat | i < |s| && day(s[i].created) == d.byDay[n].key|
  {
    var dayOf := (i: Info) => day(i.created);
    CountIsSize(s, dayOf, d.byDay[n].key);
    assert (set i: nat | i < |s| && day(s[i].created) == d.byDay[n].key) == Having(s, dayOf, d.byDay[n].key);
  }

  /**
   Incident `i` is listed for follow-up: not closed, with the outcome that asks for it; a private
   summary is withheld.
   */
  predicate ListedAs(s: seq<Info>, i: nat, ref: Ref)
  {
    && i < |s| && s[i].outcome == Some("Follow-Up Required") && s[i].state != "closed"
    && ref.number == s[i].number
    && ref.summary == if s[i].isPrivate || s[i].summary.None? then "" else s[i].summary.value
  }

  lemma {:induction false} FollowUpsExactly(s: seq<Info>, ref: Ref)
    ensures ref in FollowUps(s) <==> exists i: nat :: ListedAs(s, i, ref)
  {
    if s != [] {
      var init, last := s[..|s| - 1], |s| - 1;
      FollowUpsExactly(init, ref);
      forall i: nat | i < last ensures ListedAs(init, i, ref) <==> ListedAs(s, i, ref) { assert init[i] == s[i]; }
      assert ref in FollowUp(s[last]) <==> ListedAs(s, last, ref);
    }
  }

  function IsListed(i: Info): bool { FollowUp(i) != [] }

  lemma {:induction false} FollowUpsAreListed(s: seq<Info>)
    ensures |FollowUps(s)| == CountKey(s, IsListed, true)
  {
    if s != [] { FollowUpsAreListed(s[..|s| - 1]); }
  }

  /** Each such incident is listed once. */
  lemma FollowUpsCount(s: seq<Info>)
    ensures |FollowUps(s)| ==
            |set i: nat | i < |s| && s[i].outcome == Some("Follow-Up Required") && s[i].state != "closed"|
  {
    FollowUpsAreListed(s);
    CountIsSize(s, IsListed, true);
    var all := set i: nat | i < |s| && s[i].outcome == Some("Follow-Up Required") && s[i].state != "closed";
    forall i: nat ensures i in all <==> i in Having(s, IsListed, true) {}
    assert all == Having(s, IsListed, true);
  }

  lemma ScaleOneMore(x: int, n: nat)
    ensures x * (n + 1) == x * n + x
  {
  }

  /** The sum of the times to close lies between the bounds of its terms. */
  lemma {:induction false} TimeToCloseWithin(s: seq<Info>, low: int, high: int)
    requires forall i :: 0 <= i < |s| && s[i].closed.Some? ==> low <= s[i].closed.value - s[i].created <= high
    ensures low * CountKey(s, HasCloseTime, true) <= TimeToClose(s) <= high * CountKey(s, HasCloseTime, true)
  {
    if s != [] {
      var init := s[..|s| - 1];
      TimeToCloseWithin(init, low, high);
      ScaleOneMore(low, CountKey(init, HasCloseTime, true));
      ScaleOneMore(high, CountKey(init, HasCloseTime, true));
    }
  }

  /** The average lies between the shortest and the longest time from creation to closing. */
  lemma AverageWithin(d: Dashboard, s: seq<Info>, day: int -> string, low: int, high: int)
    requires Shows(d, s, day) && forall i :: i in s && i.closed.Some? ==> low <= i.closed.value - i.created <= high
    ensures d.averageToClose.None? <==> forall i :: i in s ==> i.closed.None?
    ensures d.averageToClose.Some? ==> low as real <= d.averageToClose.value <= high as real
  {
    forall i | 0 <= i < |s| ensures s[i] in s {}
    TimeToCloseWithin(s, low, high);
    CountPositive(s, HasCloseTime, true);
    if d.closedCount > 0 { QuotientWithin(TimeToClose(s), d.closedCount, low, high); }
  }

  lemma QuotientWithin(sum: int, n: nat, low: int, high: int)
    requires n > 0 && low * n <= sum <= high * n
    ensures low as real <= sum as real / n as real <= high as real
  {
    var q := sum as real / n as real;
    assert q * n as real == sum as real;
    assert (low * n) as real == low as real * n as real;
    assert (high * n) as real == high as real * n as real;
  }

  // The dashboard of a store.

  function StateText(state: Incident.State): string
  {
    match state
    case Open => "open"
    case Closed => "closed"
  }

  /** The query's rows: the event's incidents, each once. */
  ghost predicate QueryOf(s: Incident.Store, event: int, incidents: seq<Info>)
  {
    && (forall i, j :: 0 <= i < j < |incidents| ==> incidents[i].number != incidents[j].number)
    && (forall info :: info in incidents ==>
          var id := Incident.IncidentId(event, info.number);
          && id in s.rows && info.state == StateText(s.rows[id].state) && info.closed == s.rows[id].closed)
    && (forall number :: Incident.IncidentId(event, number) in s.rows ==>
         exists info :: info in incidents && info.number == number)
  }

  lemma {:induction false} SameCounts(s: seq<Info>)
    requires forall i :: i in s ==> (IsClosed(i) <==> HasCloseTime(i))
    ensures CountKey(s, IsClosed, true) == CountKey(s, HasCloseTime, true)
  {
    if s != [] {
      var init, last := s[..|s| - 1], s[|s| - 1];
      assert s == init + [last];
      assert last in s && forall i :: i in init ==> i in s;
      SameCounts(init);
    }
  }

  lemma TotalIsNumberOfIncidents(s: Incident.Store, event: int, incidents: seq<Info>)
    requires QueryOf(s, event, incidents)
    ensures |incidents| == |IncidentRuns.IncidentNumbers(s, event)|
  {
    var numbers := seq(|incidents|, i requires 0 <= i < |incidents| => incidents[i].number);
    NoDuplicatesCount(numbers);
    var ids := IncidentRuns.IncidentNumbers(s, event);
    forall n | n in ToSet(numbers) ensures n in ids {
      var i :| 0 <= i < |numbers| && numbers[i] == n;
      assert incidents[i] in incidents;
    }
    forall n | n in ids ensures n in ToSet(numbers) {
      assert Incident.IncidentId(event, n) in s.rows;
      var i :| 0 <= i < |incidents| && incidents[i].number == n;
      assert numbers[i] == n;
    }
    assert ToSet(numbers) == ids;
  }

  /**
   On every store a run can reach, all three breakdowns sum to the total, and the incidents shown as
   closed are as many as those with a closing time, over which the average is taken.
   */
  lemma DashboardOfReachableStore(
    ops: seq<IncidentRuns.Op>, trim: string -> string, event: int, incidents: seq<Info>,
    day: int -> string, d: Dashboard)
    requires IncidentRuns.AllAllowed(IncidentRuns.EMPTY_STORE, ops, trim)
    requires QueryOf(IncidentRuns.Run(IncidentRuns.EMPTY_STORE, ops, trim), event, incidents)
    requires Shows(d, incidents, day)
    ensures d.closed == d.closedCount
    ensures Total(d.byState) == Total(d.byPriority) == Total(d.byDay) == d.total == d.open + d.closed
    ensures d.total == |IncidentRuns.IncidentNumbers(IncidentRuns.Run(IncidentRuns.EMPTY_STORE, ops, trim), event)|
  {
    IncidentRuns.ReachableInv(ops, trim);
    var s := IncidentRuns.Run(IncidentRuns.EMPTY_STORE, ops, trim);
    forall i | i in incidents ensures IsClosed(i) <==> HasCloseTime(i) {
      var id := Incident.IncidentId(event, i.number);
      assert Incident.RowOk(s, id, s.rows[id]);
    }
    SameCounts(incidents);
    TotalIsNumberOfIncidents(s, event, incidents);
    CountsSumToTotal(d, incidents, day);
  }
}
