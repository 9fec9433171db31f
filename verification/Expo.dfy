/**
 The receipt queue of the Expo push backend (go/lib/push/expo.go): accepted sends wait in a bounded
 queue until they are old enough to have a receipt, and receipts are then fetched in batches.
 */
module Expo {
  import opened Prelude

  const RECEIPT_BATCH := 100
  const PENDING_LIMIT := 4096
  const DEVICE_NOT_REGISTERED := "DeviceNotRegistered"

  datatype Ticket = Ticket(id: string, endpoint: string, at: int)

  /** `taken` is every ticket the sweeper has removed so far, in the order it removed them. */
  datatype Queue = Queue(pending: seq<Ticket>, dropped: nat, taken: seq<Ticket>)

  datatype Op = QueueReceipt(id: string, endpoint: string, at: int) | TakeDue(at: int)

  predicate Due(t: Ticket, cutoff: int)
  {
    t.at <= cutoff
  }

  function DueTickets(pending: seq<Ticket>, cutoff: int): seq<Ticket>
  {
    Filter(pending, (t: Ticket) => Due(t, cutoff))
  }

  function KeptTickets(pending: seq<Ticket>, cutoff: int): seq<Ticket>
  {
    Filter(pending, (t: Ticket) => !Due(t, cutoff))
  }

  function Step(delay: int, q: Queue, op: Op): Queue
  {
    match op
    case QueueReceipt(id, endpoint, at) =>
      if id == "" then q
      else if |q.pending| >= PENDING_LIMIT then q.(dropped := q.dropped + 1)
      else q.(pending := q.pending + [Ticket(id, endpoint, at)])
    case TakeDue(now) =>
      q.(pending := KeptTickets(q.pending, now - delay), taken := q.taken + DueTickets(q.pending, now - delay))
  }

  function Run(delay: int, ops: seq<Op>): Queue
  {
    if ops == [] then Queue([], 0, []) else Step(delay, Run(delay, ops[..|ops| - 1]), ops[|ops| - 1])
  }

  /** The tickets with an id that were queued while there was room, in order. */
  function Accepted(delay: int, ops: seq<Op>): seq<Ticket>
  {
    if ops == [] then []
    else
      var init, op := ops[..|ops| - 1], ops[|ops| - 1];
      Accepted(delay, init) +
      (if op.QueueReceipt? && op.id != "" && |Run(delay, init).pending| < PENDING_LIMIT
       then [Ticket(op.id, op.endpoint, op.at)] else [])
  }

  /** How many tickets with an id were handed to the queue. */
  function Offered(ops: seq<Op>): nat
  {
    if ops == [] then 0
    else Offered(ops[..|ops| - 1]) + (if ops[|ops| - 1].QueueReceipt? && ops[|ops| - 1].id != "" then 1 else 0)
  }

  /** A ticket at the end of the queue goes to one side or the other. */
  lemma SplitLast(s: seq<Ticket>, t: Ticket, cutoff: int)
    ensures DueTickets(s + [t], cutoff) == DueTickets(s, cutoff) + (if Due(t, cutoff) then [t] else [])
    ensures KeptTickets(s + [t], cutoff) == KeptTickets(s, cutoff) + (if Due(t, cutoff) then [] else [t])
  {
    assert (s + [t])[..|s|] == s;
  }

  lemma {:induction false} FilterPartition(s: seq<Ticket>, cutoff: int)
    ensures |DueTickets(s, cutoff)| + |KeptTickets(s, cutoff)| == |s|
    ensures multiset(DueTickets(s, cutoff)) + multiset(KeptTickets(s, cutoff)) == multiset(s)
  {
    if s != [] {
      var init, last := s[..|s| - 1], s[|s| - 1];
      FilterPartition(init, cutoff);
      SplitLast(init, last, cutoff);
      assert s == init + [last];
    }
  }

  ghost predicate Conserved(q: Queue, offered: nat, accepted: seq<Ticket>)
  {
    && |q.pending| <= PENDING_LIMIT
    && offered == |q.pending| + |q.taken| + q.dropped
    && multiset(q.taken) + multiset(q.pending) == multiset(accepted)
  }

  lemma TakeConserves(delay: int, q: Queue, now: int, offered: nat, accepted: seq<Ticket>)
    requires Conserved(q, offered, accepted)
    ensures Conserved(Step(delay, q, TakeDue(now)), offered, accepted)
  {
    var due, kept := DueTickets(q.pending, now - delay), KeptTickets(q.pending, now - delay);
    FilterPartition(q.pending, now - delay);
    assert multiset(q.taken + due) == multiset(q.taken) + multiset(due);
  }

  lemma QueueConserves(delay: int, q: Queue, t: Ticket, offered: nat, accepted: seq<Ticket>)
    requires Conserved(q, offered, accepted) && t.id != ""
    ensures Conserved(Step(delay, q, QueueReceipt(t.id, t.endpoint, t.at)), offered + 1,
                      if |q.pending| < PENDING_LIMIT then accepted + [t] else accepted)
  {
    assert multiset(q.pending + [t]) == multiset(q.pending) + multiset{t};
    assert multiset(accepted + [t]) == multiset(accepted) + multiset{t};
  }

  /**
   Conservation, whatever the clock does: every ticket handed over is pending, taken or counted as
   dropped; the pending and taken ones are exactly the accepted ones; the queue is bounded.
   */
  lemma {:induction false} TicketsConserved(delay: int, ops: seq<Op>)
    ensures Conserved(Run(delay, ops), Offered(ops), Accepted(delay, ops))
  {
    if ops != [] {
      var init, op := ops[..|ops| - 1], ops[|ops| - 1];
      TicketsConserved(delay, init);
      match op {
        case TakeDue(now) => TakeConserves(delay, Run(delay, init), now, Offered(init), Accepted(delay, init));
        case QueueReceipt(id, endpoint, at) =>
          if id != "" {
            QueueConserves(delay, Run(delay, init), Ticket(id, endpoint, at), Offered(init), Accepted(delay, init));
          }
      }
    }
  }

  // With a clock that does not run backwards the queue is first in, first out.

  /**
   Tickets are stamped under the queue's lock, so their times follow the order of the operations. A
   sweep reads its clock before it gets the lock, so its time may be any.
   */
  ghost predicate StampsOrdered(ops: seq<Op>)
  {
    forall i, j :: 0 <= i < j < |ops| && ops[i].QueueReceipt? && ops[j].QueueReceipt? ==> ops[i].at <= ops[j].at
  }

  ghost predicate SortedByTime(s: seq<Ticket>)
  {
    forall i, j :: 0 <= i < j < |s| ==> s[i].at <= s[j].at
  }

  lemma {:induction false} SortedSplit(s: seq<Ticket>, cutoff: int)
    requires SortedByTime(s)
    ensures DueTickets(s, cutoff) + KeptTickets(s, cutoff) == s
  {
    if s != [] {
      var init, last := s[..|s| - 1], s[|s| - 1];
      SortedSplit(init, cutoff);
      if Due(last, cutoff) {
        AllDue(s, cutoff);
      } else {
        ConcatAssoc(DueTickets(init, cutoff), KeptTickets(init, cutoff), [last]);
        assert DueTickets(s, cutoff) == DueTickets(init, cutoff);
      }
      assert s == init + [last];
    }
  }

  lemma {:induction false} AllDue(s: seq<Ticket>, cutoff: int)
    requires SortedByTime(s) && s != [] && Due(s[|s| - 1], cutoff)
    ensures DueTickets(s, cutoff) == s && KeptTickets(s, cutoff) == []
  {
    var init := s[..|s| - 1];
    if init == [] {
      assert DueTickets(init, cutoff) == [] && KeptTickets(init, cutoff) == [];
    } else {
      AllDue(init, cutoff);
    }
    assert s == init + [s[|s| - 1]];
  }

  lemma SuffixSorted(a: seq<Ticket>, b: seq<Ticket>)
    requires SortedByTime(a + b)
    ensures SortedByTime(b)
  {
    forall i, j | 0 <= i < j < |b| ensures b[i].at <= b[j].at {
      assert (a + b)[|a| + i] == b[i] && (a + b)[|a| + j] == b[j];
    }
  }

  ghost predicate InOrder(q: Queue, accepted: seq<Ticket>, now: int)
  {
    && q.taken + q.pending == accepted
    && SortedByTime(q.pending)
    && forall i :: 0 <= i < |q.pending| ==> q.pending[i].at <= now
  }

  lemma TakeKeepsOrder(delay: int, q: Queue, at: int, accepted: seq<Ticket>, now: int)
    requires InOrder(q, accepted, now)
    ensures InOrder(Step(delay, q, TakeDue(at)), accepted, now)
  {
    var due, kept := DueTickets(q.pending, at - delay), KeptTickets(q.pending, at - delay);
    SortedSplit(q.pending, at - delay);
    ConcatAssoc(q.taken, due, kept);
    SuffixSorted(due, kept);
    forall i | 0 <= i < |kept| ensures kept[i].at <= now {
      assert (due + kept)[|due| + i] == kept[i];
    }
  }

  lemma QueueKeepsOrder(delay: int, q: Queue, t: Ticket, accepted: seq<Ticket>)
    requires InOrder(q, accepted, t.at) && t.id != "" && |q.pending| < PENDING_LIMIT
    ensures InOrder(Step(delay, q, QueueReceipt(t.id, t.endpoint, t.at)), accepted + [t], t.at)
  {
    ConcatAssoc(q.taken, q.pending, [t]);
  }

  lemma {:induction false} FilterHolds(s: seq<Ticket>, keep: Ticket -> bool, t: Ticket)
    ensures t in Filter(s, keep) <==> t in s && keep(t)
  {
    if s != [] {
      FilterHolds(s[..|s| - 1], keep, t);
      assert s == s[..|s| - 1] + [s[|s| - 1]];
    }
  }

  /** Which tickets a sweep takes and which it leaves. */
  lemma SweepTakesTheAged(pending: seq<Ticket>, delay: int, now: int)
    ensures forall t :: t in DueTickets(pending, now - delay) <==> t in pending && now - t.at >= delay
    ensures forall t :: t in KeptTickets(pending, now - delay) <==> t in pending && now - t.at < delay
  {
    forall t
      ensures t in DueTickets(pending, now - delay) <==> t in pending && now - t.at >= delay
      ensures t in KeptTickets(pending, now - delay) <==> t in pending && now - t.at < delay
    {
      FilterHolds(pending, (t: Ticket) => Due(t, now - delay), t);
      FilterHolds(pending, (t: Ticket) => !Due(t, now - delay), t);
    }
  }

  /** Over every run: a ticket that was taken was at least the delay old for the sweep that took it. */
  lemma {:induction false} TakenWereAged(delay: int, ops: seq<Op>, t: Ticket)
    ensures t in Run(delay, ops).taken ==> exists k :: 0 <= k < |ops| && ops[k].TakeDue? && ops[k].at - t.at >= delay
  {
    if ops != [] {
      var init, op := ops[..|ops| - 1], ops[|ops| - 1];
      TakenWereAged(delay, init, t);
      assert forall k :: 0 <= k < |init| ==> init[k] == ops[k];
      if op.TakeDue? { SweepTakesTheAged(Run(delay, init).pending, delay, op.at); }
    }
  }

  /** Tickets leave the queue in the order they were accepted: none overtakes another, whenever the sweeps look. */
  lemma {:induction false} FirstInFirstOut(delay: int, ops: seq<Op>, now: int)
    requires StampsOrdered(ops)
    requires forall i :: 0 <= i < |ops| && ops[i].QueueReceipt? ==> ops[i].at <= now
    ensures InOrder(Run(delay, ops), Accepted(delay, ops), now)
    decreases |ops|
  {
    if ops != [] {
      var init, op := ops[..|ops| - 1], ops[|ops| - 1];
      var q := Run(delay, init);
      match op {
        case TakeDue(at) =>
          FirstInFirstOut(delay, init, now);
          TakeKeepsOrder(delay, q, at, Accepted(delay, init), now);
        case QueueReceipt(id, endpoint, at) =>
          FirstInFirstOut(delay, init, at);
          if id != "" && |q.pending| < PENDING_LIMIT {
            QueueKeepsOrder(delay, q, Ticket(id, endpoint, at), Accepted(delay, init));
          }
      }
    }
  }

  // Batches.

  function Flatten(batches: seq<seq<Ticket>>): seq<Ticket>
  {
    if batches == [] then [] else Flatten(batches[..|batches| - 1]) + batches[|batches| - 1]
  }

  datatype Receipt = Receipt(status: string, error: string)

  predicate Dead(r: Receipt)
  {
    r.status == "error" && r.error == DEVICE_NOT_REGISTERED
  }

  /** The endpoint the batch gives an id: its last ticket's, or "" for an id that was not asked for. */
  function EndpointOf(batch: seq<Ticket>, id: string): string
  {
    if batch == [] then ""
    else if batch[|batch| - 1].id == id then batch[|batch| - 1].endpoint
    else EndpointOf(batch[..|batch| - 1], id)
  }

  function Ids(batch: seq<Ticket>): seq<string>
  {
    if batch == [] then [] else Ids(batch[..|batch| - 1]) + [batch[|batch| - 1].id]
  }

  /** What the receipts of one batch say to prune; a failed fetch says nothing. */
  function DeadEndpoints(batch: seq<Ticket>, reply: Option<map<string, Receipt>>): set<string>
  {
    if reply.None? then {} else set id | id in reply.value && Dead(reply.value[id]) :: EndpointOf(batch, id)
  }

  function AllDeadEndpoints(batches: seq<seq<Ticket>>, fetch: seq<string> -> Option<map<string, Receipt>>): set<string>
  {
    if batches == [] then {}
    else
      var last := batches[|batches| - 1];
      AllDeadEndpoints(batches[..|batches| - 1], fetch) + DeadEndpoints(last, fetch(Ids(last)))
  }

  /** The device of a receipt id is that of the last ticket with it. */
  lemma {:induction false} EndpointIsLast(batch: seq<Ticket>, id: string, i: nat)
    requires i < |batch| && batch[i].id == id && forall j :: i < j < |batch| ==> batch[j].id != id
    ensures EndpointOf(batch, id) == batch[i].endpoint
  {
    if i < |batch| - 1 { EndpointIsLast(batch[..|batch| - 1], id, i); }
  }

  /** The reply for the batch has an error receipt for this device that says it is not registered. */
  ghost predicate ReportedGone(batch: seq<Ticket>, reply: Option<map<string, Receipt>>, endpoint: string)
  {
    reply.Some? &&
    exists id :: id in reply.value && reply.value[id].status == "error"
                 && reply.value[id].error == "DeviceNotRegistered" && endpoint == EndpointOf(batch, id)
  }

  lemma BatchPrunes(batch: seq<Ticket>, reply: Option<map<string, Receipt>>, endpoint: string)
    ensures endpoint in DeadEndpoints(batch, reply) <==> ReportedGone(batch, reply, endpoint)
  {
  }

  /** Pruned are exactly the devices that some batch's reply reports gone. */
  lemma {:induction false} PrunedExactly(
    batches: seq<seq<Ticket>>, fetch: seq<string> -> Option<map<string, Receipt>>, endpoint: string)
    ensures endpoint in AllDeadEndpoints(batches, fetch) <==>
            exists i :: 0 <= i < |batches| && ReportedGone(batches[i], fetch(Ids(batches[i])), endpoint)
  {
    if batches != [] {
      var init, last := batches[..|batches| - 1], |batches| - 1;
      PrunedExactly(init, fetch, endpoint);
      BatchPrunes(batches[last], fetch(Ids(batches[last])), endpoint);
      assert forall i :: 0 <= i < last ==> init[i] == batches[i];
    }
  }

  ghost predicate BatchSizes(batches: seq<seq<Ticket>>)
  {
    && (forall i :: 0 <= i < |batches| ==> 1 <= |batches[i]| <= RECEIPT_BATCH)
    && (forall i :: 0 <= i < |batches| - 1 ==> |batches[i]| == RECEIPT_BATCH)
  }

  lemma {:induction false} EndpointIsTickets(batch: seq<Ticket>, id: string)
    ensures if id in Ids(batch) then exists t :: t in batch && t.id == id && t.endpoint == EndpointOf(batch, id)
            else EndpointOf(batch, id) == ""
  {
    if batch != [] {
      var init, last := batch[..|batch| - 1], batch[|batch| - 1];
      EndpointIsTickets(init, id);
      assert batch == init + [last];
      assert last in batch;
      forall t | t in init ensures t in batch {}
    }
  }

  /** Only devices of taken tickets are pruned, as long as the service answers for ids it was asked about. */
  lemma {:induction false} PrunesOnlyTaken(
    batches: seq<seq<Ticket>>, fetch: seq<string> -> Option<map<string, Receipt>>)
    requires forall ids :: fetch(ids).Some? ==> forall id :: id in fetch(ids).value ==> id in ids
    ensures forall e :: e in AllDeadEndpoints(batches, fetch) ==>
                          exists t :: t in Flatten(batches) && t.endpoint == e
  {
    if batches != [] {
      var init, last := batches[..|batches| - 1], batches[|batches| - 1];
      PrunesOnlyTaken(init, fetch);
      var reply := fetch(Ids(last));
      forall e | e in AllDeadEndpoints(batches, fetch) ensures exists t :: t in Flatten(batches) && t.endpoint == e {
        if e in AllDeadEndpoints(init, fetch) {
          var t :| t in Flatten(init) && t.endpoint == e;
          assert t in Flatten(batches);
        } else {
          var id :| id in reply.value && Dead(reply.value[id]) && e == EndpointOf(last, id);
          EndpointIsTickets(last, id);
          var t :| t in last && t.id == id && t.endpoint == e;
          assert t in Flatten(batches);
        }
      }
    }
  }

  // The sender as the program stores it.

  class ExpoPushSender {
    const delay: int
    var pending: seq<Ticket>
    var dropped: nat
    ghost var taken: seq<Ticket>

    ghost function State(): Queue
      reads this
    {
      Queue(pending, dropped, taken)
    }

    constructor (delay: int)
      ensures this.delay == delay && State() == Queue([], 0, [])
    {
      this.delay, pending, dropped, taken := delay, [], 0, [];
    }

    method QueueReceipt(id: string, endpoint: string, now: int)
      modifies this
      ensures State() == Step(delay, old(State()), Op.QueueReceipt(id, endpoint, now))
    {
      if id == "" {
        return;
      }
      if |pending| >= PENDING_LIMIT {
        dropped := dropped + 1;
        return;
      }
      pending := pending + [Ticket(id, endpoint, now)];
    }

    method TakeDue(now: int) returns (due: seq<Ticket>)
      modifies this
      ensures due == DueTickets(old(pending), now - delay)
      ensures forall t :: t in due <==> t in old(pending) && now - t.at >= delay
      ensures forall t :: t in pending <==> t in old(pending) && now - t.at < delay
      ensures State() == Step(delay, old(State()), Op.TakeDue(now))
    {
      var cutoff := now - delay;
      var keep: seq<Ticket> := [];
      due := [];
      for i := 0 to |pending|
        invariant pending == old(pending)
        invariant due == DueTickets(pending[..i], cutoff)
        invariant keep == KeptTickets(pending[..i], cutoff)
      {
        var t := pending[i];
        assert pending[..i + 1][..i] == pending[..i];
        if t.at > cutoff {
          keep := keep + [t];
        } else {
          due := due + [t];
        }
      }
      assert pending[..|pending|] == pending;
      SweepTakesTheAged(pending, delay, now);
      pending := keep;
      taken := taken + due;
    }

    /** Takes the due tickets and asks for their receipts; `fetch` is the service's reply to a list of ids. */
    method CheckDueReceipts(now: int, fetch: seq<string> -> Option<map<string, Receipt>>)
      returns (batches: seq<seq<Ticket>>, pruned: set<string>)
      modifies this
      ensures State() == Step(delay, old(State()), Op.TakeDue(now))
      ensures Flatten(batches) == DueTickets(old(pending), now - delay) && BatchSizes(batches)
      ensures pruned == AllDeadEndpoints(batches, fetch)
    {
      var due := TakeDue(now);
      batches, pruned := FetchInBatches(due, fetch);
    }
  }

  ghost predicate AllFull(batches: seq<seq<Ticket>>)
  {
    forall i :: 0 <= i < |batches| ==> |batches[i]| == RECEIPT_BATCH
  }

  lemma BatchAppended(batches: seq<seq<Ticket>>, batch: seq<Ticket>, fetch: seq<string> -> Option<map<string, Receipt>>)
    requires BatchSizes(batches) && AllFull(batches) && 1 <= |batch| <= RECEIPT_BATCH
    ensures var batches' := batches + [batch];
            && Flatten(batches') == Flatten(batches) + batch
            && AllDeadEndpoints(batches', fetch) ==
                 AllDeadEndpoints(batches, fetch) + DeadEndpoints(batch, fetch(Ids(batch)))
            && BatchSizes(batches')
            && (|batch| == RECEIPT_BATCH ==> AllFull(batches'))
  {
    assert (batches + [batch])[..|batches|] == batches;
  }

  method FetchInBatches(due: seq<Ticket>, fetch: seq<string> -> Option<map<string, Receipt>>)
    returns (batches: seq<seq<Ticket>>, pruned: set<string>)
    ensures Flatten(batches) == due && BatchSizes(batches)
    ensures pruned == AllDeadEndpoints(batches, fetch)
  {
    batches, pruned := [], {};
    var start := 0;
    while start < |due|
      invariant 0 <= start <= |due|
      invariant Flatten(batches) == due[..start] && BatchSizes(batches)
      invariant start < |due| ==> AllFull(batches)
      invariant pruned == AllDeadEndpoints(batches, fetch)
    {
      var end := if start + RECEIPT_BATCH < |due| then start + RECEIPT_BATCH else |due|;
      var batch := due[start..end];
      var dead := DeadInBatch(batch, fetch);
      pruned := pruned + dead;
      BatchAppended(batches, batch, fetch);
      assert due[..start] + batch == due[..end];
      batches := batches + [batch];
      start := end;
    }
    assert due[..|due|] == due;
  }

  method DeadInBatch(batch: seq<Ticket>, fetch: seq<string> -> Option<map<string, Receipt>>) returns (dead: set<string>)
    ensures dead == DeadEndpoints(batch, fetch(Ids(batch)))
  {
    var ids, endpoints := IndexBatch(batch);
    var reply := fetch(ids);
    if reply.None? {
      return {};
    }
    dead := {};
    var todo := reply.value.Keys;
    while todo != {}
      invariant todo <= reply.value.Keys
      invariant dead == set id | id in reply.value.Keys - todo && Dead(reply.value[id]) :: EndpointOf(batch, id)
      decreases todo
    {
      var id :| id in todo;
      todo := todo - {id};
      if Dead(reply.value[id]) {
        dead := dead + {if id in endpoints then endpoints[id] else ""};
      }
    }
  }

  /** The id list of a batch and its map back to endpoints, where a repeated id keeps its last endpoint. */
  method IndexBatch(batch: seq<Ticket>) returns (ids: seq<string>, endpoints: map<string, string>)
    ensures ids == Ids(batch)
    ensures forall id :: EndpointOf(batch, id) == if id in endpoints then endpoints[id] else ""
  {
    ids, endpoints := [], map[];
    for i := 0 to |batch|
      invariant ids == Ids(batch[..i])
      invariant forall id :: EndpointOf(batch[..i], id) == if id in endpoints then endpoints[id] else ""
    {
      assert batch[..i + 1][..i] == batch[..i];
      endpoints := endpoints[batch[i].id := batch[i].endpoint];
      ids := ids + [batch[i].id];
    }
    assert batch[..|batch|] == batch;
  }
}
