/**
 The live-update hub (go/internal/server/watchhub.go) as a protocol.

 Every method of the hub and of a session holds the hub's mutex for its whole body, and a receive
 from a buffered channel is one atomic action, so a run of the system is a sequence of the steps in
 `Op`, in any order, over any number of sessions. Receives may also fall inside a publish;
 `PublishIsAtomic` shows that this makes no difference. A session is named by its place in subscription
 order. A closed channel keeps the values buffered in it: they can still be received.

 The classes at the end are the hub and its sessions as the program stores them; each method is
 proved to perform exactly the protocol step of the same name.
 */
module WatchHub {
  import opened Prelude

  const WATCH_BUFFER := 64

  datatype Poke = Poke(event: int, incident: int, report: int)

  datatype Reason = NoReason | FellBehind | ShuttingDown

  /** `taken` is what the session's own handler has received so far. */
  datatype Session = Session(
    events: set<int>, buffer: seq<Poke>, open: bool, reason: Reason, taken: seq<Poke>)
  {
    /** Every poke that ever entered this session's channel. */
    function Accepted(): seq<Poke> { taken + buffer }
  }

  datatype Hub = Hub(sessions: seq<Session>, subs: set<nat>)

  const EMPTY_HUB := Hub([], {})

  datatype Op =
    | Subscribe(events: set<int>)
    | Publish(poke: Poke)
    | Receive(id: nat)
    | CloseSession(id: nat)
    | CloseHub

  datatype Received = Got(poke: Poke) | ChannelClosed | WouldBlock

  // The steps.

  function End(s: Session, reason: Reason): Session
  {
    if s.open then s.(open := false, reason := reason) else s
  }

  /** The non-blocking send: a full buffer ends the session instead. */
  function Offer(s: Session, poke: Poke): Session
  {
    if poke.event !in s.events then s
    else if |s.buffer| < WATCH_BUFFER then s.(buffer := s.buffer + [poke])
    else End(s, FellBehind)
  }

  function Take(s: Session): Session
  {
    if s.buffer == [] then s else s.(buffer := s.buffer[1..], taken := s.taken + [s.buffer[0]])
  }

  function Peek(s: Session): Received
  {
    if s.buffer != [] then Got(s.buffer[0]) else if s.open then WouldBlock else ChannelClosed
  }

  function Fresh(events: set<int>): Session
  {
    Session(events, [], true, NoReason, [])
  }

  function DoSubscribe(h: Hub, events: set<int>): Hub
  {
    Hub(h.sessions + [Fresh(events)], h.subs + {|h.sessions|})
  }

  function DoPublish(h: Hub, poke: Poke): Hub
  {
    if poke.event == 0 then h
    else Hub(
           seq(|h.sessions|, i requires 0 <= i < |h.sessions| =>
             if i in h.subs then Offer(h.sessions[i], poke) else h.sessions[i]),
           set i | i in h.subs && (i < |h.sessions| ==> Offer(h.sessions[i], poke).open))
  }

  function DoReceive(h: Hub, id: nat): Hub
  {
    if id < |h.sessions| then h.(sessions := h.sessions[id := Take(h.sessions[id])]) else h
  }

  function DoCloseSession(h: Hub, id: nat): Hub
  {
    if id in h.subs && id < |h.sessions| then
      Hub(h.sessions[id := End(h.sessions[id], NoReason)], h.subs - {id})
    else h
  }

  function DoCloseHub(h: Hub): Hub
  {
    Hub(seq(|h.sessions|, i requires 0 <= i < |h.sessions| =>
          if i in h.subs then End(h.sessions[i], ShuttingDown) else h.sessions[i]),
        {})
  }

  function Step(h: Hub, op: Op): Hub
  {
    match op
    case Subscribe(events) => DoSubscribe(h, events)
    case Publish(poke) => DoPublish(h, poke)
    case Receive(id) => DoReceive(h, id)
    case CloseSession(id) => DoCloseSession(h, id)
    case CloseHub => DoCloseHub(h)
  }

  function Run(h: Hub, ops: seq<Op>): Hub
  {
    if ops == [] then h else Step(Run(h, ops[..|ops| - 1]), ops[|ops| - 1])
  }

  // The lifecycle invariant.

  ghost predicate SessionOk(s: Session)
  {
    && |s.buffer| <= WATCH_BUFFER
    && (s.open ==> s.reason == NoReason)
  }

  /** A session is registered exactly while its channel is open, and has no reason until it ends. */
  ghost predicate Inv(h: Hub)
  {
    && (forall i :: i in h.subs ==> i < |h.sessions|)
    && (forall i: nat :: i < |h.sessions| ==> (i in h.subs <==> h.sessions[i].open))
    && (forall i: nat :: i < |h.sessions| ==> SessionOk(h.sessions[i]))
  }

  lemma StepKeepsInv(h: Hub, op: Op)
    requires Inv(h)
    ensures Inv(Step(h, op))
    ensures |h.sessions| <= |Step(h, op).sessions|
  {
    var h' := Step(h, op);
    forall i: nat | i < |h'.sessions|
      ensures (i in h'.subs <==> h'.sessions[i].open) && SessionOk(h'.sessions[i])
    {
      if i < |h.sessions| { assert SessionOk(h.sessions[i]); }
    }
  }

  lemma {:induction false} RunKeepsInv(h: Hub, ops: seq<Op>)
    requires Inv(h)
    ensures Inv(Run(h, ops))
    ensures |h.sessions| <= |Run(h, ops).sessions|
  {
    if ops != [] {
      RunKeepsInv(h, ops[..|ops| - 1]);
      StepKeepsInv(Run(h, ops[..|ops| - 1]), ops[|ops| - 1]);
    }
  }

  /** In every reachable state a session is registered iff its channel is open. */
  lemma ReachableInv(ops: seq<Op>)
    ensures Inv(Run(EMPTY_HUB, ops))
  {
    RunKeepsInv(EMPTY_HUB, ops);
  }

  /** What a step does to one session, told without the rest of the hub. */
  function Local(s: Session, op: Op, id: nat): Session
  {
    match op
    case Subscribe(_) => s
    case Publish(poke) => if poke.event != 0 && s.open then Offer(s, poke) else s
    case Receive(j) => if j == id then Take(s) else s
    case CloseSession(j) => if j == id then End(s, NoReason) else s
    case CloseHub => End(s, ShuttingDown)
  }

  lemma StepIsLocal(h: Hub, op: Op, id: nat)
    requires Inv(h) && id < |h.sessions|
    ensures id < |Step(h, op).sessions|
    ensures Step(h, op).sessions[id] == Local(h.sessions[id], op, id)
  {
  }

  /** A session's own history under the steps of a run. */
  function After(s: Session, ops: seq<Op>, id: nat): Session
  {
    if ops == [] then s else Local(After(s, ops[..|ops| - 1], id), ops[|ops| - 1], id)
  }

  /** Sessions do not influence one another: in every run each evolves by its own local rule. */
  lemma {:induction false} RunIsLocal(h: Hub, ops: seq<Op>, id: nat)
    requires Inv(h) && id < |h.sessions|
    ensures id < |Run(h, ops).sessions|
    ensures Run(h, ops).sessions[id] == After(h.sessions[id], ops, id)
  {
    if ops != [] {
      var init := ops[..|ops| - 1];
      RunIsLocal(h, init, id);
      RunKeepsInv(h, init);
      StepIsLocal(Run(h, init), ops[|ops| - 1], id);
    }
  }

  lemma {:induction false} AfterConcat(s: Session, a: seq<Op>, b: seq<Op>, id: nat)
    ensures After(s, a + b, id) == After(After(s, a, id), b, id)
  {
    if b == [] {
      assert a + b == a;
    } else {
      AfterConcat(s, a, b[..|b| - 1], id);
      assert (a + b)[..|a + b| - 1] == a + b[..|b| - 1];
    }
  }

  lemma {:induction false} RunConcat(h: Hub, a: seq<Op>, b: seq<Op>)
    ensures Run(h, a + b) == Run(Run(h, a), b)
  {
    if b == [] {
      assert a + b == a;
    } else {
      RunConcat(h, a, b[..|b| - 1]);
      assert (a + b)[..|a + b| - 1] == a + b[..|b| - 1];
    }
  }

  // Exact delivery.

  /** The pokes a watcher of `events` is owed for these steps; judged from the publications alone. */
  function Wanted(ops: seq<Op>, events: set<int>): seq<Poke>
  {
    if ops == [] then []
    else Wanted(ops[..|ops| - 1], events) + WantedOne(ops[|ops| - 1], events)
  }

  function WantedOne(op: Op, events: set<int>): seq<Poke>
  {
    if op.Publish? && op.poke.event != 0 && op.poke.event in events then [op.poke] else []
  }

  /** Step `k` of the run is the one that closed the session. */
  ghost predicate EndsAt(s: Session, ops: seq<Op>, id: nat, k: nat)
  {
    k < |ops| && After(s, ops[..k], id).open && !After(s, ops[..k + 1], id).open
  }

  /** The recorded reason names the step that ended the session; overflow means a full buffer. */
  ghost predicate EndExplained(before: Session, op: Op, id: nat, reason: Reason)
  {
    match reason
    case NoReason => op == CloseSession(id)
    case ShuttingDown => op == CloseHub
    case FellBehind => WantedOne(op, before.events) != [] && |before.buffer| == WATCH_BUFFER
  }

  /** The session ended at step `k`, with everything published for it before that, and a fitting reason. */
  ghost predicate EndedWithAll(events: set<int>, ops: seq<Op>, id: nat, k: nat)
  {
    && EndsAt(Fresh(events), ops, id, k)
    && After(Fresh(events), ops, id).Accepted() == Wanted(ops[..k], events)
    && EndExplained(After(Fresh(events), ops[..k], id), ops[k], id, After(Fresh(events), ops, id).reason)
  }

  /** What is known of a session at any point of its history. */
  ghost predicate Accounted(events: set<int>, ops: seq<Op>, id: nat)
  {
    var s := After(Fresh(events), ops, id);
    && s.events == events
    && |s.buffer| <= WATCH_BUFFER
    && (s.open ==> s.reason == NoReason && s.Accepted() == Wanted(ops, events))
    && (!s.open ==> exists k :: EndedWithAll(events, ops, id, k))
  }

  lemma {:induction false} LocalDelivery(events: set<int>, ops: seq<Op>, id: nat)
    ensures Accounted(events, ops, id)
  {
    if ops != [] {
      var init, op := ops[..|ops| - 1], ops[|ops| - 1];
      LocalDelivery(events, init, id);
      assert init + [op] == ops;
      var s := After(Fresh(events), init, id);
      if !s.open {
        DeliveryAfterEnd(events, init, op, id);
      } else if Local(s, op, id).open {
        DeliveryWhileOpen(events, init, op, id);
      } else {
        DeliveryAtEnd(events, init, op, id);
      }
    }
  }

  lemma AfterOne(s: Session, ops: seq<Op>, op: Op, id: nat)
    ensures After(s, ops + [op], id) == Local(After(s, ops, id), op, id)
  {
    assert (ops + [op])[..|ops|] == ops;
  }

  lemma DeliveryWhileOpen(events: set<int>, ops: seq<Op>, op: Op, id: nat)
    requires Accounted(events, ops, id)
    requires After(Fresh(events), ops, id).open && Local(After(Fresh(events), ops, id), op, id).open
    ensures Accounted(events, ops + [op], id)
  {
    AfterOne(Fresh(events), ops, op, id);
    LocalAccepts(After(Fresh(events), ops, id), op, id);
    assert (ops + [op])[..|ops|] == ops;
  }

  lemma DeliveryAtEnd(events: set<int>, ops: seq<Op>, op: Op, id: nat)
    requires Accounted(events, ops, id)
    requires After(Fresh(events), ops, id).open && !Local(After(Fresh(events), ops, id), op, id).open
    ensures Accounted(events, ops + [op], id)
  {
    var all := ops + [op];
    AfterOne(Fresh(events), ops, op, id);
    LocalEnds(After(Fresh(events), ops, id), op, id);
    assert all[..|ops|] == ops && all[..|ops| + 1] == all;
    assert EndedWithAll(events, all, id, |ops|);
  }

  lemma DeliveryAfterEnd(events: set<int>, ops: seq<Op>, op: Op, id: nat)
    requires Accounted(events, ops, id) && !After(Fresh(events), ops, id).open
    ensures Accounted(events, ops + [op], id)
  {
    var all := ops + [op];
    var k: nat :| EndedWithAll(events, ops, id, k);
    AfterOne(Fresh(events), ops, op, id);
    LocalEnded(After(Fresh(events), ops, id), op, id);
    assert all[..k] == ops[..k] && all[..k + 1] == ops[..k + 1];
    assert EndedWithAll(events, all, id, k);
  }

  lemma LocalEnded(s: Session, op: Op, id: nat)
    requires !s.open
    ensures var s' := Local(s, op, id);
            !s'.open && s'.reason == s.reason && s'.events == s.events && s'.Accepted() == s.Accepted()
            && |s'.buffer| <= |s.buffer|
  {
    if s.buffer != [] {
      assert s.buffer == [s.buffer[0]] + s.buffer[1..];
    }
  }

  lemma LocalEnds(s: Session, op: Op, id: nat)
    requires s.open && !Local(s, op, id).open && |s.buffer| <= WATCH_BUFFER
    ensures var s' := Local(s, op, id);
            s' == s.(open := false, reason := s'.reason) && EndExplained(s, op, id, s'.reason)
  {
  }

  /** While the channel stays open, a step adds exactly what it published for this session. */
  lemma LocalAccepts(s: Session, op: Op, id: nat)
    requires s.open && Local(s, op, id).open
    ensures Local(s, op, id).Accepted() == s.Accepted() + WantedOne(op, s.events)
  {
    if op.Receive? && op.id == id && s.buffer != [] {
      assert s.buffer == [s.buffer[0]] + s.buffer[1..];
    }
  }

  /**
   From its subscription on, whatever the interleaving, what a session has taken followed by what it
   has buffered is exactly what was published for it: all of it while the session is open, and all
   of it up to the step that ended the session otherwise.
   */
  lemma ExactDelivery(h: Hub, events: set<int>, ops: seq<Op>)
    requires Inv(h)
    ensures var h', id := Run(Step(h, Subscribe(events)), ops), |h.sessions|;
            && id < |h'.sessions|
            && var s := h'.sessions[id];
               && s == After(Fresh(events), ops, id)
               && (id in h'.subs <==> s.open)
               && (s.open ==> s.Accepted() == Wanted(ops, events))
               && (!s.open ==> exists k :: EndedWithAll(events, ops, id, k))
  {
    StepKeepsInv(h, Subscribe(events));
    RunKeepsInv(Step(h, Subscribe(events)), ops);
    RunIsLocal(Step(h, Subscribe(events)), ops, |h.sessions|);
    LocalDelivery(events, ops, |h.sessions|);
  }

  /** A session dropped for falling behind holds strictly less than was published to it. */
  lemma FellBehindMissesSome(events: set<int>, ops: seq<Op>, id: nat)
    requires After(Fresh(events), ops, id).reason == FellBehind
    ensures !After(Fresh(events), ops, id).open
    ensures After(Fresh(events), ops, id).Accepted() < Wanted(ops, events)
  {
    LocalDelivery(events, ops, id);
    var k: nat :| EndedWithAll(events, ops, id, k);
    LocalDelivery(events, ops[..k], id);
    WantedMonotone(ops, k + 1, events);
    assert ops[..k + 1][..k] == ops[..k];
  }

  lemma {:induction false} WantedMonotone(ops: seq<Op>, k: nat, events: set<int>)
    requires k <= |ops|
    ensures Wanted(ops[..k], events) <= Wanted(ops, events)
  {
    if k == |ops| {
      assert ops[..k] == ops;
    } else {
      var init := ops[..|ops| - 1];
      WantedMonotone(init, k, events);
      assert init[..k] == ops[..k];
    }
  }

  // After the end.

  function ReceiveCount(ops: seq<Op>, id: nat): nat
  {
    if ops == [] then 0
    else ReceiveCount(ops[..|ops| - 1], id) + (if ops[|ops| - 1] == Receive(id) then 1 else 0)
  }

  function Min(a: nat, b: nat): nat { if a < b then a else b }

  /**
   An ended session stays ended: its reason never changes, nothing more enters its channel, and each
   receive takes the next buffered poke until none is left.
   */
  lemma {:induction false} EndedIsFinal(s: Session, ops: seq<Op>, id: nat)
    requires !s.open
    ensures var n := Min(ReceiveCount(ops, id), |s.buffer|);
            After(s, ops, id) == s.(taken := s.taken + s.buffer[..n], buffer := s.buffer[n..])
  {
    if ops == [] {
      assert s.taken + s.buffer[..0] == s.taken;
    } else {
      var init, op := ops[..|ops| - 1], ops[|ops| - 1];
      EndedIsFinal(s, init, id);
      var n := Min(ReceiveCount(init, id), |s.buffer|);
      if op == Receive(id) && n < |s.buffer| {
        assert s.buffer[n..][1..] == s.buffer[n + 1..] && s.buffer[n..][0] == s.buffer[n];
        assert s.taken + s.buffer[..n] + [s.buffer[n]] == s.taken + s.buffer[..n + 1];
      }
    }
  }

  /** What a receive finds, told from the channel. */
  lemma PeekPlainly(s: Session)
    ensures Peek(s) == ChannelClosed <==> !s.open && s.buffer == []
    ensures Peek(s) == WouldBlock <==> s.open && s.buffer == []
    ensures s.buffer != [] ==> Peek(s) == Got(s.buffer[0])
  {
  }

  /** An ended session's channel reports its close from the receive after the last buffered poke on, and not before. */
  lemma DrainedReportsClose(s: Session, ops: seq<Op>, id: nat)
    requires !s.open
    ensures Peek(After(s, ops, id)) == ChannelClosed <==> ReceiveCount(ops, id) >= |s.buffer|
  {
    EndedIsFinal(s, ops, id);
    PeekPlainly(After(s, ops, id));
  }

  lemma CloseEndedIsNoop(h: Hub, id: nat)
    requires Inv(h) && id < |h.sessions| && !h.sessions[id].open
    ensures Run(h, [CloseSession(id)]) == h
  {
    assert [CloseSession(id)][..0] == [];
  }

  /**
   Once a session has ended, however it ended, closing it again at any later point of any run
   changes nothing at all.
   */
  lemma CloseAfterEndUnobservable(h: Hub, a: seq<Op>, b: seq<Op>, id: nat)
    requires Inv(h) && id < |h.sessions| && !h.sessions[id].open
    ensures Run(h, a + [CloseSession(id)] + b) == Run(h, a + b)
  {
    EndedIsFinal(h.sessions[id], a, id);
    RunIsLocal(h, a, id);
    RunKeepsInv(h, a);
    CloseEndedIsNoop(Run(h, a), id);
    RunConcat(h, a, [CloseSession(id)]);
    RunConcat(h, a + [CloseSession(id)], b);
    RunConcat(h, a, b);
  }

  /** Shutting the hub down ends every session; doing it again at once finds none. */
  lemma ShutdownEndsAll(h: Hub, id: nat)
    requires Inv(h) && id < |h.sessions|
    ensures var down := Step(h, CloseHub);
            && !down.sessions[id].open
            && down.sessions[id].reason == (if h.sessions[id].open then ShuttingDown else h.sessions[id].reason)
            && Step(down, CloseHub) == down
  {
    var down := Step(h, CloseHub);
    assert Step(down, CloseHub).sessions == down.sessions;
  }

  /** Every session learns of a shutdown, exactly after as many receives as it had pokes buffered. */
  lemma ShutdownIsReported(h: Hub, b: seq<Op>, id: nat)
    requires Inv(h) && id < |h.sessions|
    ensures id < |Run(Step(h, CloseHub), b).sessions|
    ensures Peek(Run(Step(h, CloseHub), b).sessions[id]) == ChannelClosed
            <==> ReceiveCount(b, id) >= |h.sessions[id].buffer|
  {
    var down := Step(h, CloseHub);
    StepKeepsInv(h, CloseHub);
    StepIsLocal(h, CloseHub, id);
    RunIsLocal(down, b, id);
    DrainedReportsClose(down.sessions[id], b, id);
  }

  lemma NothingToShutDown(h: Hub)
    requires Inv(h)
    ensures Step(h, CloseHub) == h <==> forall id: nat :: id < |h.sessions| ==> !h.sessions[id].open
  {
    var down := Step(h, CloseHub);
    forall id: nat | id < |h.sessions|
      ensures h.sessions[id].open ==> down.sessions[id] != h.sessions[id]
      ensures !h.sessions[id].open ==> down.sessions[id] == h.sessions[id]
    {
    }
    if forall id: nat :: id < |h.sessions| ==> !h.sessions[id].open {
      assert h.subs == {};
      assert down.sessions == h.sessions;
    }
  }

  /**
   After a shutdown the hub still accepts subscribers. Whatever happens in between, the sessions
   attached before the shutdown stay ended, and another shutdown changes nothing exactly when none
   of the sessions attached since is still open.
   */
  lemma SecondShutdownExactly(h: Hub, b: seq<Op>)
    requires Inv(h)
    ensures var later := Run(Step(h, CloseHub), b);
            && |h.sessions| <= |later.sessions|
            && (forall id: nat :: id < |h.sessions| ==> !later.sessions[id].open)
            && (Step(later, CloseHub) == later <==>
                forall id: nat :: |h.sessions| <= id < |later.sessions| ==> !later.sessions[id].open)
  {
    var down := Step(h, CloseHub);
    StepKeepsInv(h, CloseHub);
    RunKeepsInv(down, b);
    var later := Run(down, b);
    forall id: nat | id < |h.sessions| ensures !later.sessions[id].open {
      ShutdownEndsAll(h, id);
      RunIsLocal(down, b, id);
      EndedIsFinal(down.sessions[id], b, id);
    }
    NothingToShutDown(later);
  }

  // A publish, subscriber by subscriber.

  /**
   A receive does not take the hub's mutex, so receives may fall between two deliveries of one
   publish; everything else has to wait for its end.
   */
  datatype Part = Delivery(id: nat) | Receipt(id: nat)

  /** One subscriber's turn: its session takes the poke, or ends and leaves the subscribers. */
  function DeliverTo(h: Hub, id: nat, poke: Poke): Hub
  {
    if id in h.subs && id < |h.sessions| then
      var s := Offer(h.sessions[id], poke);
      Hub(h.sessions[id := s], if s.open then h.subs else h.subs - {id})
    else h
  }

  function DoPart(h: Hub, poke: Poke, part: Part): Hub
  {
    match part
    case Delivery(id) => DeliverTo(h, id, poke)
    case Receipt(id) => DoReceive(h, id)
  }

  function RunParts(h: Hub, poke: Poke, parts: seq<Part>): Hub
  {
    if parts == [] then h else DoPart(RunParts(h, poke, parts[..|parts| - 1]), poke, parts[|parts| - 1])
  }

  /** The sessions that have had their turn. */
  function HadTurn(parts: seq<Part>): set<nat>
  {
    if parts == [] then {}
    else
      var last := parts[|parts| - 1];
      HadTurn(parts[..|parts| - 1]) + (if last.Delivery? then {last.id} else {})
  }

  /** The receives made by sessions that had not had their turn, in order; the rest are late. */
  function Early(parts: seq<Part>): seq<nat>
  {
    if parts == [] then []
    else
      var init, last := parts[..|parts| - 1], parts[|parts| - 1];
      Early(init) + (if last.Receipt? && last.id !in HadTurn(init) then [last.id] else [])
  }

  function Late(parts: seq<Part>): seq<nat>
  {
    if parts == [] then []
    else
      var init, last := parts[..|parts| - 1], parts[|parts| - 1];
      Late(init) + (if last.Receipt? && last.id in HadTurn(init) then [last.id] else [])
  }

  function Receives(ids: seq<nat>): (ops: seq<Op>)
    ensures |ops| == |ids|
  {
    if ids == [] then [] else Receives(ids[..|ids| - 1]) + [Receive(ids[|ids| - 1])]
  }

  /** A publish to some of the subscribers only. */
  function PublishTo(h: Hub, poke: Poke, some: set<nat>): Hub
  {
    Hub(seq(|h.sessions|, i requires 0 <= i < |h.sessions| =>
          if i in h.subs && i in some then Offer(h.sessions[i], poke) else h.sessions[i]),
        set i | i in h.subs && (i < |h.sessions| && i in some ==> Offer(h.sessions[i], poke).open))
  }

  lemma ReceivesOneMore(ids: seq<nat>, id: nat)
    ensures Receives(ids + [id]) == Receives(ids) + [Receive(id)]
  {
    assert (ids + [id])[..|ids|] == ids;
  }

  lemma RunOneMore(h: Hub, ops: seq<Op>, op: Op)
    ensures Run(h, ops + [op]) == Step(Run(h, ops), op)
  {
    assert (ops + [op])[..|ops|] == ops;
  }

  lemma TakesCommute(h: Hub, i: nat, j: nat)
    requires i != j
    ensures DoReceive(DoReceive(h, i), j) == DoReceive(DoReceive(h, j), i)
  {
    assert DoReceive(DoReceive(h, i), j).sessions == DoReceive(DoReceive(h, j), i).sessions;
  }

  /** A receive commutes with every other session's delivery. */
  lemma TakeCommutesWithDelivery(h: Hub, poke: Poke, i: nat, j: nat)
    requires i != j
    ensures DoReceive(DeliverTo(h, i, poke), j) == DeliverTo(DoReceive(h, j), i, poke)
  {
    assert DoReceive(DeliverTo(h, i, poke), j).sessions == DeliverTo(DoReceive(h, j), i, poke).sessions;
  }

  lemma TakeCommutesWithPublish(h: Hub, poke: Poke, some: set<nat>, j: nat)
    requires j !in some
    ensures DoReceive(PublishTo(h, poke, some), j) == PublishTo(DoReceive(h, j), poke, some)
  {
    var left, right := DoReceive(PublishTo(h, poke, some), j), PublishTo(DoReceive(h, j), poke, some);
    assert left.sessions == right.sessions;
    assert forall i :: i in left.subs <==> i in right.subs;
  }

  lemma DeliveryExtendsPublish(h: Hub, poke: Poke, some: set<nat>, i: nat)
    requires i !in some && (forall k :: k in h.subs ==> k < |h.sessions|)
    ensures DeliverTo(PublishTo(h, poke, some), i, poke) == PublishTo(h, poke, some + {i})
  {
    var left, right := DeliverTo(PublishTo(h, poke, some), i, poke), PublishTo(h, poke, some + {i});
    assert left.sessions == right.sessions;
    assert forall k :: k in left.subs <==> k in right.subs;
  }

  lemma {:induction false} TakePassesReceives(h: Hub, ids: seq<nat>, j: nat)
    requires j !in ids
    ensures DoReceive(Run(h, Receives(ids)), j) == Run(DoReceive(h, j), Receives(ids))
  {
    if ids != [] {
      var init, last := ids[..|ids| - 1], ids[|ids| - 1];
      assert ids == init + [last];
      TakePassesReceives(h, init, j);
      TakesCommute(Run(h, Receives(init)), last, j);
      RunOneMore(h, Receives(init), Receive(last));
      RunOneMore(DoReceive(h, j), Receives(init), Receive(last));
    }
  }

  lemma {:induction false} DeliveryPassesReceives(h: Hub, poke: Poke, ids: seq<nat>, i: nat)
    requires i !in ids
    ensures DeliverTo(Run(h, Receives(ids)), i, poke) == Run(DeliverTo(h, i, poke), Receives(ids))
  {
    if ids != [] {
      var init, last := ids[..|ids| - 1], ids[|ids| - 1];
      assert ids == init + [last];
      DeliveryPassesReceives(h, poke, init, i);
      TakeCommutesWithDelivery(Run(h, Receives(init)), poke, i, last);
      RunOneMore(h, Receives(init), Receive(last));
      RunOneMore(DeliverTo(h, i, poke), Receives(init), Receive(last));
    }
  }

  lemma {:induction false} ReceivesKeepSubs(h: Hub, ids: seq<nat>)
    ensures Run(h, Receives(ids)).subs == h.subs && |Run(h, Receives(ids)).sessions| == |h.sessions|
  {
    if ids != [] {
      ReceivesKeepSubs(h, ids[..|ids| - 1]);
      RunOneMore(h, Receives(ids[..|ids| - 1]), Receive(ids[|ids| - 1]));
    }
  }

  lemma {:induction false} LateAreServed(parts: seq<Part>, i: nat)
    ensures i in Late(parts) ==> i in HadTurn(parts)
  {
    if parts != [] { LateAreServed(parts[..|parts| - 1], i); }
  }

  function Count<T(==)>(s: seq<T>, x: T): nat
  {
    if s == [] then 0 else Count(s[..|s| - 1], x) + if s[|s| - 1] == x then 1 else 0
  }

  lemma CountOneMore<T>(s: seq<T>, x: T, y: T)
    ensures Count(s + [x], y) == Count(s, y) + if x == y then 1 else 0
  {
    assert (s + [x])[..|s|] == s;
  }

  /** Nothing is lost by the reordering: each session's receives are split between the two lists. */
  lemma {:induction false} ReceiptsKept(parts: seq<Part>, i: nat)
    ensures Count(Early(parts), i) + Count(Late(parts), i) == Count(parts, Receipt(i))
  {
    if parts != [] {
      var init, last := parts[..|parts| - 1], parts[|parts| - 1];
      ReceiptsKept(init, i);
      CountOneMore(Early(init), last.id, i);
      CountOneMore(Late(init), last.id, i);
      assert Early(init) + [] == Early(init) && Late(init) + [] == Late(init);
    }
  }

  /** No session gets two turns. */
  predicate TurnsOnce(parts: seq<Part>)
  {
    parts == [] ||
    var init, last := parts[..|parts| - 1], parts[|parts| - 1];
    TurnsOnce(init) && (last.Delivery? ==> last.id !in HadTurn(init))
  }

  /** The parts so far, put in order: the early receives, one publish to those who had their turn, the late ones. */
  function Ordered(h: Hub, poke: Poke, early: seq<nat>, done: set<nat>, late: seq<nat>): Hub
  {
    Run(PublishTo(Run(h, Receives(early)), poke, done), Receives(late))
  }

  lemma OneMoreDelivery(h: Hub, poke: Poke, early: seq<nat>, done: set<nat>, late: seq<nat>, i: nat)
    requires i !in done && i !in late && forall k :: k in h.subs ==> k < |h.sessions|
    ensures DeliverTo(Ordered(h, poke, early, done, late), i, poke) == Ordered(h, poke, early, done + {i}, late)
  {
    var h1 := Run(h, Receives(early));
    ReceivesKeepSubs(h, early);
    DeliveryPassesReceives(PublishTo(h1, poke, done), poke, late, i);
    DeliveryExtendsPublish(h1, poke, done, i);
  }

  lemma OneMoreEarly(h: Hub, poke: Poke, early: seq<nat>, done: set<nat>, late: seq<nat>, i: nat)
    requires i !in done && i !in late
    ensures DoReceive(Ordered(h, poke, early, done, late), i) == Ordered(h, poke, early + [i], done, late)
  {
    var h1 := Run(h, Receives(early));
    ReceivesOneMore(early, i);
    RunOneMore(h, Receives(early), Receive(i));
    TakePassesReceives(PublishTo(h1, poke, done), late, i);
    TakeCommutesWithPublish(h1, poke, done, i);
  }

  lemma OneMoreLate(h: Hub, poke: Poke, early: seq<nat>, done: set<nat>, late: seq<nat>, i: nat)
    ensures DoReceive(Ordered(h, poke, early, done, late), i) == Ordered(h, poke, early, done, late + [i])
  {
    ReceivesOneMore(late, i);
    RunOneMore(PublishTo(Run(h, Receives(early)), poke, done), Receives(late), Receive(i));
  }

  lemma {:induction false} PartsReordered(h: Hub, poke: Poke, parts: seq<Part>)
    requires TurnsOnce(parts) && forall k :: k in h.subs ==> k < |h.sessions|
    ensures RunParts(h, poke, parts) == Ordered(h, poke, Early(parts), HadTurn(parts), Late(parts))
  {
    if parts == [] {
      assert PublishTo(h, poke, {}).sessions == h.sessions;
    } else {
      var init, last := parts[..|parts| - 1], parts[|parts| - 1];
      PartsReordered(h, poke, init);
      LateAreServed(init, last.id);
      match last {
        case Delivery(i) =>
          assert Early(parts) == Early(init) && Late(parts) == Late(init);
          OneMoreDelivery(h, poke, Early(init), HadTurn(init), Late(init), i);
        case Receipt(i) =>
          assert HadTurn(parts) == HadTurn(init);
          if i in HadTurn(init) {
            assert Early(parts) == Early(init) && Late(parts) == Late(init) + [i];
            OneMoreLate(h, poke, Early(init), HadTurn(init), Late(init), i);
          } else {
            assert Early(parts) == Early(init) + [i] && Late(parts) == Late(init);
            OneMoreEarly(h, poke, Early(init), HadTurn(init), Late(init), i);
          }
      }
    }
  }

  /**
   A publish may be taken as one step. However its deliveries are ordered and whatever receives fall
   between them, the outcome is that of the whole publish at one moment, with each receive before it
   or after it according to whether its own session had had its turn; receives keep their order.
   */
  lemma PublishIsAtomic(h: Hub, poke: Poke, parts: seq<Part>)
    requires Inv(h) && poke.event != 0 && TurnsOnce(parts) && HadTurn(parts) == h.subs
    ensures RunParts(h, poke, parts) ==
            Run(h, Receives(Early(parts)) + [Publish(poke)] + Receives(Late(parts)))
  {
    var early, late := Receives(Early(parts)), Receives(Late(parts));
    PartsReordered(h, poke, parts);
    ReceivesKeepSubs(h, Early(parts));
    var h1 := Run(h, early);
    assert PublishTo(h1, poke, h.subs) == DoPublish(h1, poke) by {
      assert PublishTo(h1, poke, h.subs).sessions == DoPublish(h1, poke).sessions;
    }
    RunOneMore(h, early, Publish(poke));
    RunConcat(h, early + [Publish(poke)], late);
  }

  // The hub as the program stores it.

  /** One attached subscriber; `pokes` and `open` are its buffered channel. */
  class WatchSession {
    const events: set<int>
    var pokes: seq<Poke>
    var open: bool
    var ended: bool
    var reason: Reason
    ghost var taken: seq<Poke>

    ghost function View(): Session
      reads this
    {
      Session(events, pokes, open, reason, taken)
    }

    ghost predicate Ok()
      reads this
    {
      && SessionOk(View())
      && (ended <==> !open)
    }

    constructor (events: set<int>)
      ensures Ok() && View() == Session(events, [], true, NoReason, [])
    {
      this.events, pokes, open, ended, reason, taken := events, [], true, false, NoReason, [];
    }

    /** The send of a `select` with a default; sending on a closed channel would panic. */
    method TrySend(poke: Poke) returns (sent: bool)
      requires open
      modifies this`pokes
      ensures sent <==> |old(pokes)| < WATCH_BUFFER
      ensures pokes == if sent then old(pokes) + [poke] else old(pokes)
    {
      sent := |pokes| < WATCH_BUFFER;
      if sent {
        pokes := pokes + [poke];
      }
    }

    /** Closing a closed channel would panic. */
    method CloseChannel()
      requires open
      modifies this`open
      ensures !open
    {
      open := false;
    }

    method EndWith(r: Reason)
      requires Ok()
      modifies this
      ensures Ok() && View() == End(old(View()), r)
    {
      if !ended {
        ended, reason := true, r;
        CloseChannel();
      }
    }

    /** One subscriber's turn in Publish; a full buffer ends the session. */
    method Deliver(poke: Poke) returns (live: bool)
      requires Ok() && open
      modifies this
      ensures Ok() && View() == Offer(old(View()), poke) && live == open
    {
      if poke.event in events {
        var sent := TrySend(poke);
        if !sent {
          EndWith(FellBehind);
          return false;
        }
      }
      live := true;
    }

    /** One receive; when it would block, the receiver is not scheduled. */
    method ReceivePoke() returns (r: Received)
      requires Ok()
      modifies this
      ensures Ok() && r == Peek(old(View())) && View() == Take(old(View()))
      ensures r == WouldBlock <==> open && old(pokes) == []
      ensures r == ChannelClosed <==> !open && old(pokes) == []
      ensures r.Got? <==> old(pokes) != []
      ensures old(pokes) != [] ==> r == Got(old(pokes)[0]) && pokes == old(pokes)[1..]
      ensures old(pokes) == [] ==> pokes == []
      ensures open == old(open) && reason == old(reason)
    {
      if pokes != [] {
        r := Got(pokes[0]);
        taken := taken + [pokes[0]];
        pokes := pokes[1..];
      } else {
        r := if open then WouldBlock else ChannelClosed;
      }
    }
  }

  class WatchHub {
    var subs: set<WatchSession>
    /** Every session ever attached, in order; the protocol names sessions by this order. */
    ghost var all: seq<WatchSession>

    ghost predicate Valid()
      reads this, all
    {
      && NoDuplicates(all)
      && (forall s :: s in subs ==> s in all)
      && (forall s :: s in all ==> s.Ok() && (s in subs <==> s.open))
    }

    ghost function State(): Hub
      reads this, all
    {
      Hub(seq(|all|, i requires 0 <= i < |all| reads this, all => all[i].View()),
          set i: nat | i < |all| && all[i] in subs)
    }

    constructor ()
      ensures Valid() && State() == EMPTY_HUB
    {
      subs, all := {}, [];
    }

    /** A valid hub is in a state that satisfies the protocol's invariant. */
    lemma ValidState()
      requires Valid()
      ensures Inv(State())
    {
      forall i: nat | i < |all| ensures all[i].Ok() {}
    }

    method Subscribe(events: set<int>) returns (s: WatchSession)
      requires Valid()
      modifies this
      ensures Valid() && fresh(s) && all == old(all) + [s]
      ensures State() == DoSubscribe(old(State()), events)
    {
      s := new WatchSession(events);
      subs := subs + {s};
      all := all + [s];
      assert forall i: nat :: i < |old(all)| ==> all[i].View() == old(all[i].View());
    }

    method Publish(poke: Poke)
      requires Valid()
      modifies this`subs, all
      ensures Valid() && all == old(all)
      ensures State() == DoPublish(old(State()), poke)
    {
      if poke.event == 0 {
        return;
      }
      var todo := subs;
      while todo != {}
        invariant all == old(all) && todo <= old(subs)
        invariant forall s :: s in all ==> s.Ok()
        invariant forall s :: s in all ==>
                    s.View() == if s in old(subs) && s !in todo then Offer(old(s.View()), poke) else old(s.View())
        invariant forall s :: s in subs <==> s in old(subs) && s.open
        decreases todo
      {
        var sub :| sub in todo;
        todo := todo - {sub};
        var live := sub.Deliver(poke);
        if !live { subs := subs - {sub}; }
      }
      assert forall i: nat :: i < |all| ==> all[i] in all;
    }

    method Close()
      requires Valid()
      modifies this`subs, all
      ensures Valid() && all == old(all)
      ensures State() == DoCloseHub(old(State()))
    {
      while subs != {}
        invariant all == old(all) && subs <= old(subs)
        invariant forall s :: s in all ==> s.Ok()
        invariant forall s :: s in all ==>
                    s.View() == if s in old(subs) && s !in subs then End(old(s.View()), ShuttingDown) else old(s.View())
        decreases subs
      {
        var sub :| sub in subs;
        subs := subs - {sub};
        sub.EndWith(ShuttingDown);
      }
      assert forall i: nat :: i < |all| ==> all[i] in all;
    }

    /** `WatchSession.Close`: detaches the session at `id` unless the hub already did. */
    method CloseOne(s: WatchSession, ghost id: nat)
      requires Valid() && id < |all| && all[id] == s
      modifies this`subs, s
      ensures Valid() && all == old(all)
      ensures State() == DoCloseSession(old(State()), id)
    {
      assert forall i: nat :: i < |all| && i != id ==> all[i] != s;
      if s !in subs {
        return;
      }
      subs := subs - {s};
      s.EndWith(NoReason);
    }
  }
}
