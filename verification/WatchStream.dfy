/**
 The stream handler (go/internal/server/watchstream.go): admit, subscribe, beat, then loop over
 whichever of its three channels is ready until the stream ends, and detach on the way out.

 A `Turn` is one pass through the loop: first any steps the other goroutines take on the hub, then
 the ready case that the select picks, with what the clock, the visibility check and the transport
 answer. A list of turns is therefore one interleaving of the handler with the rest of the server.
 */
module WatchStream {
  import opened Prelude
  import opened WatchHub

  datatype Claims = Claims(expiresAt: Option<int>)

  predicate Expired(c: Claims, now: int)
  {
    c.expiresAt.Some? && now >= c.expiresAt.value
  }

  datatype Message = Heartbeat | PokeMessage(poke: Poke)

  /** A message and how many of the hub's steps, from the stream's own Subscribe on, it comes after. */
  datatype Delivered = Delivered(message: Message, after: nat)

  datatype Pick = ContextDone | PokeReady | TickReady

  datatype Visibility = Shown | Hidden | LookupFailed

  datatype Turn = Turn(others: seq<Op>, pick: Pick, now: int, visibility: Visibility, sendOk: bool)

  datatype Outcome =
    | Unauthenticated
    | TokenExpired
    | Refused(event: int)
    | SendFailed
    | ContextEnded
    | HubEnded(reason: Reason)
    | StillRunning

  /** One thing the handler set out to send: a poke it took, or a heartbeat when `poke` is `None`. */
  datatype Attempt = Attempt(turn: nat, poke: Option<Poke>)

  datatype AttemptFate = Sent | Withheld | FoundExpired | LostInSend

  function FateOf(c: Claims, t: Turn, poke: Option<Poke>): AttemptFate
  {
    if Expired(c, t.now) then FoundExpired
    else if poke.Some? && t.visibility != Shown then Withheld
    else if t.sendOk then Sent
    else LostInSend
  }

  /** The steps of other goroutines: the handler alone receives from its session and closes it. */
  predicate Foreign(ops: seq<Op>, id: nat)
  {
    forall op :: op in ops ==> op != Receive(id) && op != CloseSession(id)
  }

  // How a finished stream is read back.

  /** All hub steps of these turns, in order. */
  function Schedule(turns: seq<Turn>, id: nat): seq<Op>
  {
    if turns == [] then []
    else
      var t := turns[|turns| - 1];
      Schedule(turns[..|turns| - 1], id) + t.others + (if t.pick.PokeReady? then [Receive(id)] else [])
  }

  function Pokes(log: seq<Attempt>): seq<Poke>
  {
    if log == [] then []
    else
      var a := log[|log| - 1];
      Pokes(log[..|log| - 1]) + (if a.poke.Some? then [a.poke.value] else [])
  }

  function Messages(c: Claims, id: nat, turns: seq<Turn>, log: seq<Attempt>): seq<Delivered>
  {
    if log == [] then []
    else
      var a := log[|log| - 1];
      Messages(c, id, turns, log[..|log| - 1]) +
      (if Fate(c, turns, a) == Sent then [Delivered(MessageFor(a.poke), Position(id, turns, a))] else [])
  }

  /** The hub steps up to an attempt: the Subscribe and those of its own and all earlier turns. */
  function Position(id: nat, turns: seq<Turn>, a: Attempt): nat
  {
    if a.turn < |turns| then 1 + |Schedule(turns[..a.turn + 1], id)| else 0
  }

  function MessageFor(poke: Option<Poke>): Message
  {
    if poke.Some? then PokeMessage(poke.value) else Heartbeat
  }

  function Fate(c: Claims, turns: seq<Turn>, a: Attempt): AttemptFate
  {
    if a.turn < |turns| then FateOf(c, turns[a.turn], a.poke) else Withheld
  }

  /** Attempts belong to successive turns of the right kind, and every tick leaves one. */
  ghost predicate LogOk(turns: seq<Turn>, used: nat, log: seq<Attempt>)
  {
    && used <= |turns|
    && (forall k :: 0 <= k < |log| ==>
         log[k].turn < used && turns[log[k].turn].pick == if log[k].poke.Some? then PokeReady else TickReady)
    && (forall j, k :: 0 <= j < k < |log| ==> log[j].turn < log[k].turn)
    && (forall t: nat :: t < used && turns[t].pick.TickReady? ==> Attempt(t, None) in log)
  }

  ghost predicate AllCleared(c: Claims, turns: seq<Turn>, log: seq<Attempt>)
  {
    forall k :: 0 <= k < |log| ==> Cleared(Fate(c, turns, log[k]))
  }

  predicate Cleared(f: AttemptFate)
  {
    f.Sent? || f.Withheld?
  }

  /** Only the last attempt may have been lost, and then, and only then, its loss ended the stream. */
  ghost predicate EndMatchesLog(c: Claims, turns: seq<Turn>, log: seq<Attempt>, end: Outcome)
  {
    if end.TokenExpired? || end.SendFailed? then
      && log != []
      && AllCleared(c, turns, log[..|log| - 1])
      && HandledAs(Fate(c, turns, log[|log| - 1])) == end
    else
      && AllCleared(c, turns, log)
      && (end.ContextEnded? || end.HubEnded? || end.StillRunning?)
  }

  /** How an attempt with this fate leaves the stream. */
  function HandledAs(f: AttemptFate): Outcome
  {
    match f
    case FoundExpired => TokenExpired
    case LostInSend => SendFailed
    case _ => StillRunning
  }

  /** Every poke published for the session before the hub ended it has been taken. */
  ghost predicate EverythingTaken(events: set<int>, ops: seq<Op>, id: nat, taken: seq<Poke>)
  {
    exists k: nat :: EndsAt(Fresh(events), ops, id, k) && taken == Wanted(ops[..k], events)
  }

  lemma {:induction false} ForeignKeepsTaken(s: Session, ops: seq<Op>, id: nat)
    requires Foreign(ops, id)
    ensures After(s, ops, id).taken == s.taken
  {
    if ops != [] {
      var init := ops[..|ops| - 1];
      forall op | op in init ensures op in ops {}
      assert ops[|ops| - 1] in ops;
      ForeignKeepsTaken(s, init, id);
    }
  }

  /** When the channel reports closed, whatever it was ever given has been taken. */
  lemma ClosedMeansDrained(events: set<int>, ops: seq<Op>, id: nat)
    requires Peek(After(Fresh(events), ops, id)) == ChannelClosed
    ensures EverythingTaken(events, ops, id, After(Fresh(events), ops, id).taken)
  {
    LocalDelivery(events, ops, id);
    var k: nat :| EndedWithAll(events, ops, id, k);
    assert After(Fresh(events), ops, id).Accepted() == After(Fresh(events), ops, id).taken;
  }

  lemma EverythingTakenLater(events: set<int>, ops: seq<Op>, more: seq<Op>, id: nat, taken: seq<Poke>)
    requires EverythingTaken(events, ops, id, taken)
    ensures EverythingTaken(events, ops + more, id, taken)
  {
    var k: nat :| EndsAt(Fresh(events), ops, id, k) && taken == Wanted(ops[..k], events);
    assert (ops + more)[..k] == ops[..k] && (ops + more)[..k + 1] == ops[..k + 1];
    assert EndsAt(Fresh(events), ops + more, id, k);
  }

  /** The loop's bookkeeping: `s` is where these turns lead the session, and `log` what was taken on the way. */
  ghost predicate Tracks(events: set<int>, id: nat, s: Session, ops: seq<Op>, turns: seq<Turn>, used: nat,
                         log: seq<Attempt>)
  {
    && LogOk(turns, used, log)
    && s == After(Fresh(events), ops, id) && s.taken == Pokes(log)
    && ops == Schedule(turns[..used], id)
  }

  lemma LogSkip(turns: seq<Turn>, used: nat, log: seq<Attempt>)
    requires used < |turns| && LogOk(turns, used, log) && !turns[used].pick.TickReady?
    ensures LogOk(turns, used + 1, log)
  {
  }

  lemma LogExtend(turns: seq<Turn>, used: nat, log: seq<Attempt>, poke: Option<Poke>)
    requires used < |turns| && LogOk(turns, used, log)
    requires turns[used].pick == if poke.Some? then PokeReady else TickReady
    ensures LogOk(turns, used + 1, log + [Attempt(used, poke)])
  {
    var log' := log + [Attempt(used, poke)];
    forall t: nat | t < used + 1 && turns[t].pick.TickReady? ensures Attempt(t, None) in log' {
      assert log'[|log|] == Attempt(used, poke);
      if t < used { assert Attempt(t, None) in log; }
    }
  }

  lemma PokesExtend(log: seq<Attempt>, a: Attempt)
    ensures Pokes(log + [a]) == Pokes(log) + (if a.poke.Some? then [a.poke.value] else [])
  {
    assert (log + [a])[..|log|] == log;
  }

  lemma MessagesExtend(c: Claims, id: nat, turns: seq<Turn>, log: seq<Attempt>, a: Attempt)
    requires a.turn < |turns|
    ensures Messages(c, id, turns, log + [a]) ==
            Messages(c, id, turns, log) + MoreSent(c, turns[a.turn], a.poke, Position(id, turns, a))
  {
    assert (log + [a])[..|log|] == log;
  }

  lemma EndExtend(c: Claims, turns: seq<Turn>, log: seq<Attempt>, a: Attempt, end: Outcome)
    requires AllCleared(c, turns, log)
    requires end == HandledAs(Fate(c, turns, a))
    ensures EndMatchesLog(c, turns, log + [a], end)
  {
    var log' := log + [a];
    assert log'[..|log|] == log && log'[|log|] == a;
  }

  /** What the loop's bookkeeping says about the messages and about why the stream stopped. */
  ghost predicate Reported(c: Claims, id: nat, firstSendOk: bool, turns: seq<Turn>, used: nat, log: seq<Attempt>,
                           sent: seq<Delivered>, end: Outcome)
  {
    if firstSendOk then
      sent == [Delivered(Heartbeat, 1)] + Messages(c, id, turns, log) && EndMatchesLog(c, turns, log, end)
    else sent == [] && used == 0 && log == [] && end == SendFailed
  }

  // Which attempts went out and how the stream ended, told from the turns alone.

  /**
   A poke is sent exactly when, in the turn that took it, the token had not expired, the poke was
   found visible and the transport took it.
   */
  ghost predicate PokesSentExactly(c: Claims, id: nat, turns: seq<Turn>, log: seq<Attempt>, sent: seq<Delivered>)
    requires forall k :: 0 <= k < |log| ==> log[k].turn < |turns|
  {
    forall p, n :: Delivered(PokeMessage(p), n) in sent <==>
      exists k :: 0 <= k < |log| && log[k].poke == Some(p) && n == 1 + |Schedule(turns[..log[k].turn + 1], id)|
                  && (c.expiresAt.Some? ==> turns[log[k].turn].now < c.expiresAt.value)
                  && turns[log[k].turn].visibility == Shown && turns[log[k].turn].sendOk
  }

  /** A tick's heartbeat is sent exactly when the token had not expired and the transport took it. */
  ghost predicate BeatsSentExactly(c: Claims, id: nat, turns: seq<Turn>, log: seq<Attempt>, sent: seq<Delivered>)
    requires forall k :: 0 <= k < |log| ==> log[k].turn < |turns|
  {
    forall n :: Delivered(Heartbeat, n) in sent <==>
      exists k :: 0 <= k < |log| && log[k].poke.None? && n == 1 + |Schedule(turns[..log[k].turn + 1], id)|
                  && (c.expiresAt.Some? ==> turns[log[k].turn].now < c.expiresAt.value)
                  && turns[log[k].turn].sendOk
  }

  /** One message for each such attempt, and no more. */
  ghost predicate OncePerAttempt(c: Claims, turns: seq<Turn>, log: seq<Attempt>, sent: seq<Delivered>)
    requires forall k :: 0 <= k < |log| ==> log[k].turn < |turns|
  {
    |sent| == |set k: nat | k < |log|
                     && (c.expiresAt.Some? ==> turns[log[k].turn].now < c.expiresAt.value)
                     && (log[k].poke.Some? ==> turns[log[k].turn].visibility == Shown)
                     && turns[log[k].turn].sendOk|
  }

  /**
   The stream ends as expired, or as failed, exactly when the turn of its last attempt says so; no
   earlier attempt was expired or failed.
   */
  ghost predicate EndsAsLastTurnSays(c: Claims, firstSendOk: bool, turns: seq<Turn>, log: seq<Attempt>, end: Outcome)
    requires forall k :: 0 <= k < |log| ==> log[k].turn < |turns|
  {
    && (end == TokenExpired <==>
        log != [] && c.expiresAt.Some? && c.expiresAt.value <= turns[log[|log| - 1].turn].now)
    && (end == SendFailed <==>
        !firstSendOk ||
        (log != [] && (c.expiresAt.Some? ==> turns[log[|log| - 1].turn].now < c.expiresAt.value)
         && (log[|log| - 1].poke.Some? ==> turns[log[|log| - 1].turn].visibility == Shown)
         && !turns[log[|log| - 1].turn].sendOk))
    && (forall k :: 0 <= k < |log| - 1 ==>
          && (c.expiresAt.Some? ==> turns[log[k].turn].now < c.expiresAt.value)
          && ((log[k].poke.Some? ==> turns[log[k].turn].visibility == Shown) ==> turns[log[k].turn].sendOk))
  }

  ghost predicate TurnsDecide(c: Claims, id: nat, firstSendOk: bool, turns: seq<Turn>, log: seq<Attempt>,
                              sent: seq<Delivered>, end: Outcome)
  {
    && (forall k :: 0 <= k < |log| ==> log[k].turn < |turns|)
    && (if !firstSendOk then sent == [] && log == []
        else
          && sent != [] && sent[0] == Delivered(Heartbeat, 1)
          && PokesSentExactly(c, id, turns, log, sent[1..]) && BeatsSentExactly(c, id, turns, log, sent[1..])
          && OncePerAttempt(c, turns, log, sent[1..]))
    && EndsAsLastTurnSays(c, firstSendOk, turns, log, end)
  }

  /** An attempt's fate, told from its turn. */
  lemma FatePlainly(c: Claims, turns: seq<Turn>, a: Attempt)
    requires a.turn < |turns|
    ensures var t, f := turns[a.turn], Fate(c, turns, a);
            && (f == FoundExpired <==> c.expiresAt.Some? && c.expiresAt.value <= t.now)
            && (f == Sent <==> (c.expiresAt.Some? ==> t.now < c.expiresAt.value)
                               && (a.poke.Some? ==> t.visibility == Shown) && t.sendOk)
            && (f == LostInSend <==> (c.expiresAt.Some? ==> t.now < c.expiresAt.value)
                                     && (a.poke.Some? ==> t.visibility == Shown) && !t.sendOk)
  {
  }

  ghost predicate SentAs(c: Claims, id: nat, turns: seq<Turn>, log: seq<Attempt>, k: nat, d: Delivered)
  {
    k < |log| && Fate(c, turns, log[k]) == Sent && d == Delivered(MessageFor(log[k].poke), Position(id, turns, log[k]))
  }

  lemma {:induction false} MessageIn(c: Claims, id: nat, turns: seq<Turn>, log: seq<Attempt>, d: Delivered)
    ensures d in Messages(c, id, turns, log) <==> exists k: nat :: SentAs(c, id, turns, log, k, d)
  {
    if log != [] {
      var init, last := log[..|log| - 1], |log| - 1;
      MessageIn(c, id, turns, init, d);
      forall k: nat | k < last
        ensures SentAs(c, id, turns, init, k, d) <==> SentAs(c, id, turns, log, k, d)
      {
        assert init[k] == log[k];
      }
      assert SentAs(c, id, turns, log, last, d) ==> d in Messages(c, id, turns, log);
    }
  }

  function SentOnes(c: Claims, turns: seq<Turn>, log: seq<Attempt>): set<nat>
  {
    set k: nat | k < |log| && Fate(c, turns, log[k]) == Sent
  }

  lemma {:induction false} AsManyMessages(c: Claims, id: nat, turns: seq<Turn>, log: seq<Attempt>)
    ensures |Messages(c, id, turns, log)| == |SentOnes(c, turns, log)|
  {
    if log == [] {
      assert SentOnes(c, turns, log) == {};
    } else {
      var init, last := log[..|log| - 1], |log| - 1;
      AsManyMessages(c, id, turns, init);
      forall k: nat | k < last ensures k in SentOnes(c, turns, init) <==> k in SentOnes(c, turns, log) {
        assert init[k] == log[k];
      }
      var more: set<nat> := if Fate(c, turns, log[last]) == Sent then {last} else {};
      assert SentOnes(c, turns, log) == SentOnes(c, turns, init) + more;
    }
  }

  lemma PokesSent(c: Claims, id: nat, turns: seq<Turn>, log: seq<Attempt>)
    requires forall k :: 0 <= k < |log| ==> log[k].turn < |turns|
    ensures PokesSentExactly(c, id, turns, log, Messages(c, id, turns, log))
  {
    forall p, n
      ensures Delivered(PokeMessage(p), n) in Messages(c, id, turns, log) <==>
              exists k :: 0 <= k < |log| && log[k].poke == Some(p) && n == 1 + |Schedule(turns[..log[k].turn + 1], id)|
                          && (c.expiresAt.Some? ==> turns[log[k].turn].now < c.expiresAt.value)
                          && turns[log[k].turn].visibility == Shown && turns[log[k].turn].sendOk
    {
      var d := Delivered(PokeMessage(p), n);
      MessageIn(c, id, turns, log, d);
      forall k: nat | k < |log|
        ensures SentAs(c, id, turns, log, k, d) <==>
                log[k].poke == Some(p) && n == 1 + |Schedule(turns[..log[k].turn + 1], id)|
                && (c.expiresAt.Some? ==> turns[log[k].turn].now < c.expiresAt.value)
                && turns[log[k].turn].visibility == Shown && turns[log[k].turn].sendOk
      {
        FatePlainly(c, turns, log[k]);
      }
    }
  }

  lemma BeatsSent(c: Claims, id: nat, turns: seq<Turn>, log: seq<Attempt>)
    requires forall k :: 0 <= k < |log| ==> log[k].turn < |turns|
    ensures BeatsSentExactly(c, id, turns, log, Messages(c, id, turns, log))
  {
    forall n
      ensures Delivered(Heartbeat, n) in Messages(c, id, turns, log) <==>
              exists k :: 0 <= k < |log| && log[k].poke.None? && n == 1 + |Schedule(turns[..log[k].turn + 1], id)|
                          && (c.expiresAt.Some? ==> turns[log[k].turn].now < c.expiresAt.value)
                          && turns[log[k].turn].sendOk
    {
      var d := Delivered(Heartbeat, n);
      MessageIn(c, id, turns, log, d);
      forall k: nat | k < |log|
        ensures SentAs(c, id, turns, log, k, d) <==>
                log[k].poke.None? && n == 1 + |Schedule(turns[..log[k].turn + 1], id)|
                && (c.expiresAt.Some? ==> turns[log[k].turn].now < c.expiresAt.value)
                && turns[log[k].turn].sendOk
      {
        FatePlainly(c, turns, log[k]);
      }
    }
  }

  lemma OneMessageEach(c: Claims, id: nat, turns: seq<Turn>, log: seq<Attempt>)
    requires forall k :: 0 <= k < |log| ==> log[k].turn < |turns|
    ensures OncePerAttempt(c, turns, log, Messages(c, id, turns, log))
  {
    AsManyMessages(c, id, turns, log);
    var plain := set k: nat | k < |log|
                     && (c.expiresAt.Some? ==> turns[log[k].turn].now < c.expiresAt.value)
                     && (log[k].poke.Some? ==> turns[log[k].turn].visibility == Shown)
                     && turns[log[k].turn].sendOk;
    forall k: nat ensures k in SentOnes(c, turns, log) <==> k in plain {
      if k < |log| { FatePlainly(c, turns, log[k]); }
    }
    assert SentOnes(c, turns, log) == plain;
  }

  lemma EndedAsLastTurnSays(c: Claims, turns: seq<Turn>, log: seq<Attempt>, end: Outcome)
    requires forall k :: 0 <= k < |log| ==> log[k].turn < |turns|
    requires EndMatchesLog(c, turns, log, end)
    ensures EndsAsLastTurnSays(c, true, turns, log, end)
  {
    forall k | 0 <= k < |log| - 1
      ensures c.expiresAt.Some? ==> turns[log[k].turn].now < c.expiresAt.value
      ensures (log[k].poke.Some? ==> turns[log[k].turn].visibility == Shown) ==> turns[log[k].turn].sendOk
    {
      FatePlainly(c, turns, log[k]);
      assert Cleared(Fate(c, turns, log[k])) by {
        assert log[..|log| - 1][k] == log[k];
      }
    }
    if log != [] { FatePlainly(c, turns, log[|log| - 1]); }
  }

  lemma SentAsTurnsDecide(c: Claims, id: nat, firstSendOk: bool, turns: seq<Turn>, used: nat, log: seq<Attempt>,
                          sent: seq<Delivered>, end: Outcome)
    requires LogOk(turns, used, log) && Reported(c, id, firstSendOk, turns, used, log, sent, end)
    ensures TurnsDecide(c, id, firstSendOk, turns, log, sent, end)
  {
    if firstSendOk {
      assert sent[1..] == Messages(c, id, turns, log);
      PokesSent(c, id, turns, log);
      BeatsSent(c, id, turns, log);
      OneMessageEach(c, id, turns, log);
      EndedAsLastTurnSays(c, turns, log, end);
    }
  }

  /** At the position of attempt `k`, the session has taken exactly the pokes logged up to it. */
  ghost predicate TakenAt(watched: set<int>, id: nat, turns: seq<Turn>, log: seq<Attempt>, k: nat)
  {
    && k < |log| && log[k].turn < |turns|
    && After(Fresh(watched), Schedule(turns[..log[k].turn + 1], id), id).taken == Pokes(log[..k + 1])
  }

  ghost predicate TakenInTime(watched: set<int>, id: nat, turns: seq<Turn>, log: seq<Attempt>)
  {
    forall k: nat :: k < |log| ==> TakenAt(watched, id, turns, log, k)
  }

  lemma TakenAtEarlier(watched: set<int>, id: nat, turns: seq<Turn>, log: seq<Attempt>, a: Attempt, k: nat)
    requires TakenAt(watched, id, turns, log, k)
    ensures TakenAt(watched, id, turns, log + [a], k)
  {
    assert (log + [a])[..k + 1] == log[..k + 1];
  }

  lemma TakenInTimeExtend(watched: set<int>, id: nat, turns: seq<Turn>, log: seq<Attempt>, a: Attempt, taken: seq<Poke>)
    requires TakenInTime(watched, id, turns, log) && a.turn < |turns|
    requires After(Fresh(watched), Schedule(turns[..a.turn + 1], id), id).taken == taken
    requires taken == Pokes(log + [a])
    ensures TakenInTime(watched, id, turns, log + [a])
  {
    forall k: nat | k < |log| ensures TakenAt(watched, id, turns, log + [a], k) {
      TakenAtEarlier(watched, id, turns, log, a, k);
    }
    assert (log + [a])[..|log| + 1] == log + [a];
    assert TakenAt(watched, id, turns, log + [a], |log|);
  }

  /** Everything a stream admitted as session `id` guarantees; `late` is what others do before the deferred Close. */
  ghost predicate Served(watched: set<int>, id: nat, c: Claims, firstSendOk: bool, turns: seq<Turn>, late: seq<Op>,
                         sent: seq<Delivered>, log: seq<Attempt>, ops: seq<Op>, used: nat, end: Outcome)
  {
    && LogOk(turns, used, log) && TakenInTime(watched, id, turns, log)
    && Reported(c, id, firstSendOk, turns, used, log, sent, end)
    && ops == Schedule(turns[..used], id) + (if end.StillRunning? then [] else late + [CloseSession(id)])
    && (end.StillRunning? ==> used == |turns|)
    && var s := After(Fresh(watched), ops, id);
       && s.taken == Pokes(log)
       && (!end.StillRunning? ==> !s.open)
       && (end.HubEnded? ==> end.reason == s.reason != NoReason && EverythingTaken(watched, ops, id, Pokes(log)))
  }

  /**
   `hub` is the hub when the handler is called; `ops` are the hub's steps from the subscription to
   the handler's return, and `used` counts the turns the loop went through. While a send blocks, and
   between the last one and the deferred Close, the other goroutines go on: `late` is what they do last.
   */
  method Stream(hub: Hub, claims: Option<Claims>, start: int, events: seq<int>, mayWatch: int -> bool,
                firstSendOk: bool, turns: seq<Turn>, late: seq<Op>)
    returns (sent: seq<Delivered>, log: seq<Attempt>, ops: seq<Op>, used: nat, end: Outcome)
    requires Inv(hub)
    requires Foreign(late, |hub.sessions|) && forall t :: t in turns ==> Foreign(t.others, |hub.sessions|)
    // Admission: the first failing test decides, and a rejected caller never touches the hub. A token
    // has expired from its expiry time on.
    ensures end == Unauthenticated <==> claims.None?
    ensures claims.Some? && claims.value.expiresAt.Some? && claims.value.expiresAt.value <= start ==>
              end == TokenExpired
    ensures end.Refused? <==>
            claims.Some? && (claims.value.expiresAt.Some? ==> start < claims.value.expiresAt.value)
            && exists e :: e in events && !mayWatch(e)
    ensures end.Refused? ==> exists k :: 0 <= k < |events| && end.event == events[k] && !mayWatch(events[k])
                                         && forall j :: 0 <= j < k ==> mayWatch(events[j])
    ensures claims.None? || (claims.value.expiresAt.Some? && claims.value.expiresAt.value <= start) || end.Refused? ==>
              sent == [] && log == [] && ops == []
    // The admitted stream, as the hub sees it: its session is the next one, and it never leaks.
    ensures claims.Some? && (claims.value.expiresAt.Some? ==> start < claims.value.expiresAt.value) && !end.Refused? ==>
              && Served(ToSet(events), |hub.sessions|, claims.value, firstSendOk, turns,
                        late, sent, log, ops, used, end)
              && TurnsDecide(claims.value, |hub.sessions|, firstSendOk, turns, log, sent, end)
              && var h' := Run(Step(hub, Subscribe(ToSet(events))), ops);
                 && |hub.sessions| < |h'.sessions|
                 && h'.sessions[|hub.sessions|] == After(Fresh(ToSet(events)), ops, |hub.sessions|)
                 && (!end.StillRunning? ==> |hub.sessions| !in h'.subs)
    // Every message, the first heartbeat included, goes out with the session already attached.
    ensures forall d :: d in sent ==>
                  && 1 <= d.after <= 1 + |ops|
                  && |hub.sessions| < |Run(hub, ([Subscribe(ToSet(events))] + ops)[..d.after]).sessions|
  {
    if claims.None? {
      return [], [], [], 0, Unauthenticated;
    }
    if Expired(claims.value, start) {
      return [], [], [], 0, TokenExpired;
    }
    for k := 0 to |events|
      invariant forall j :: 0 <= j < k ==> mayWatch(events[j])
    {
      if !mayWatch(events[k]) {
        return [], [], [], 0, Refused(events[k]);
      }
    }
    sent, log, ops, used, end := Serve(|hub.sessions|, claims.value, ToSet(events), firstSendOk, turns, late);
    ExactDelivery(hub, ToSet(events), ops);
    forall d | d in sent
      ensures 1 <= d.after <= 1 + |ops|
      ensures |hub.sessions| < |Run(hub, ([Subscribe(ToSet(events))] + ops)[..d.after]).sessions|
    {
      SentInside(claims.value, |hub.sessions|, firstSendOk, turns, used, log, sent, end, d);
      AttachedBefore(hub, ToSet(events), ops, d.after);
    }
  }

  lemma {:induction false} ScheduleGrows(turns: seq<Turn>, id: nat, m: nat, n: nat)
    requires m <= n <= |turns|
    ensures |Schedule(turns[..m], id)| <= |Schedule(turns[..n], id)|
  {
    if m < n {
      ScheduleGrows(turns, id, m, n - 1);
      assert turns[..n][..n - 1] == turns[..n - 1];
    }
  }

  lemma {:induction false} MessagesInside(c: Claims, id: nat, turns: seq<Turn>, used: nat, log: seq<Attempt>,
                                          d: Delivered)
    requires used <= |turns| && (forall k :: 0 <= k < |log| ==> log[k].turn < used) && d in Messages(c, id, turns, log)
    ensures 1 <= d.after <= 1 + |Schedule(turns[..used], id)|
  {
    var init, a := log[..|log| - 1], log[|log| - 1];
    if d in Messages(c, id, turns, init) {
      MessagesInside(c, id, turns, used, init, d);
    } else {
      ScheduleGrows(turns, id, a.turn + 1, used);
    }
  }

  lemma SentInside(c: Claims, id: nat, firstSendOk: bool, turns: seq<Turn>, used: nat, log: seq<Attempt>,
                   sent: seq<Delivered>, end: Outcome, d: Delivered)
    requires LogOk(turns, used, log) && Reported(c, id, firstSendOk, turns, used, log, sent, end) && d in sent
    ensures 1 <= d.after <= 1 + |Schedule(turns[..used], id)|
  {
    if d != Delivered(Heartbeat, 1) {
      MessagesInside(c, id, turns, used, log, d);
    }
  }

  lemma AttachedBefore(hub: Hub, watched: set<int>, ops: seq<Op>, n: nat)
    requires Inv(hub) && 1 <= n <= 1 + |ops|
    ensures |hub.sessions| < |Run(hub, ([Subscribe(watched)] + ops)[..n]).sessions|
  {
    assert ([Subscribe(watched)] + ops)[..n] == [Subscribe(watched)] + ops[..n - 1];
    RunConcat(hub, [Subscribe(watched)], ops[..n - 1]);
    assert [Subscribe(watched)][..0] == [];
    assert Run(hub, [Subscribe(watched)]) == Step(hub, Subscribe(watched));
    StepKeepsInv(hub, Subscribe(watched));
    RunKeepsInv(Step(hub, Subscribe(watched)), ops[..n - 1]);
  }

  /** The handler from its subscription, as session `id`, on. */
  method Serve(id: nat, c: Claims, watched: set<int>, firstSendOk: bool, turns: seq<Turn>, late: seq<Op>)
    returns (sent: seq<Delivered>, log: seq<Attempt>, ops: seq<Op>, used: nat, end: Outcome)
    requires Foreign(late, id) && forall t :: t in turns ==> Foreign(t.others, id)
    ensures !end.Unauthenticated? && !end.Refused?
    ensures Served(watched, id, c, firstSendOk, turns, late, sent, log, ops, used, end)
    ensures TurnsDecide(c, id, firstSendOk, turns, log, sent, end)
  {
    var l;
    l, used := RunLoop(id, c, watched, firstSendOk, turns);
    sent, log, end := l.sent, l.log, l.end;
    SentAsTurnsDecide(c, id, firstSendOk, turns, used, log, sent, end);
    if end.StillRunning? {
      ops := l.ops;
      StillServed(watched, id, c, firstSendOk, turns, late, l, used);
    } else {
      Detach(watched, id, c, firstSendOk, turns, late, l, used);
      ops := l.ops + (late + [CloseSession(id)]);
    }
  }

  /** The first heartbeat and the loop. */
  method RunLoop(id: nat, c: Claims, watched: set<int>, firstSendOk: bool, turns: seq<Turn>)
    returns (l: Loop, used: nat)
    requires forall t :: t in turns ==> Foreign(t.others, id)
    ensures used <= |turns| && (l.end.StillRunning? ==> used == |turns|)
    ensures Account(watched, id, c, firstSendOk, l, turns, used) && TakenInTime(watched, id, turns, l.log)
  {
    l := Loop(Fresh(watched), [], [], [], StillRunning);
    used := 0;
    if firstSendOk {
      l := l.(sent := [Delivered(Heartbeat, 1)]);
    } else {
      l := l.(end := SendFailed);
    }
    while l.end.StillRunning? && used < |turns|
      invariant used <= |turns| && Account(watched, id, c, firstSendOk, l, turns, used)
      invariant TakenInTime(watched, id, turns, l.log)
      decreases |turns| - used
    {
      LoopStep(watched, id, c, firstSendOk, l, turns, used);
      l := OneTurn(id, c, l, turns[used], used);
      used := used + 1;
    }
  }

  lemma LoopStep(watched: set<int>, id: nat, c: Claims, firstSendOk: bool, l: Loop, turns: seq<Turn>, used: nat)
    requires used < |turns| && forall t :: t in turns ==> Foreign(t.others, id)
    requires Account(watched, id, c, firstSendOk, l, turns, used) && TakenInTime(watched, id, turns, l.log)
    requires l.end.StillRunning?
    ensures var l' := AfterTurn(id, c, l, turns[used], used);
            Account(watched, id, c, firstSendOk, l', turns, used + 1) && TakenInTime(watched, id, turns, l'.log)
  {
    TurnKeepsAccount(watched, id, c, l, turns, used);
    TurnTakesInTime(watched, id, c, l, turns, used);
  }

  lemma StillServed(watched: set<int>, id: nat, c: Claims, firstSendOk: bool, turns: seq<Turn>, late: seq<Op>,
                    l: Loop, used: nat)
    requires Account(watched, id, c, firstSendOk, l, turns, used) && l.end.StillRunning? && used == |turns|
    requires TakenInTime(watched, id, turns, l.log)
    ensures Served(watched, id, c, firstSendOk, turns, late, l.sent, l.log, l.ops, used, l.end)
  {
    assert l.ops + [] == l.ops;
  }

  /** The deferred Close completes the guarantee, whatever ended the loop and whatever came in between. */
  lemma Detach(watched: set<int>, id: nat, c: Claims, firstSendOk: bool, turns: seq<Turn>, late: seq<Op>,
               l: Loop, used: nat)
    requires Account(watched, id, c, firstSendOk, l, turns, used) && Foreign(late, id) && !l.end.StillRunning?
    requires TakenInTime(watched, id, turns, l.log)
    ensures Served(watched, id, c, firstSendOk, turns, late,
                   l.sent, l.log, l.ops + (late + [CloseSession(id)]), used, l.end)
  {
    DetachedSession(watched, id, l.ops, late);
    if l.end.HubEnded? { EndSurvives(watched, id, l.ops, late, Pokes(l.log)); }
  }

  lemma DetachedSession(watched: set<int>, id: nat, ops: seq<Op>, late: seq<Op>)
    requires Foreign(late, id)
    ensures var s, s' := After(Fresh(watched), ops, id), After(Fresh(watched), ops + (late + [CloseSession(id)]), id);
            s'.taken == s.taken && !s'.open
  {
    ConcatAssoc(ops, late, [CloseSession(id)]);
    AfterOne(Fresh(watched), ops + late, CloseSession(id), id);
    AfterConcat(Fresh(watched), ops, late, id);
    ForeignKeepsTaken(After(Fresh(watched), ops, id), late, id);
  }

  lemma EndSurvives(watched: set<int>, id: nat, ops: seq<Op>, late: seq<Op>, taken: seq<Poke>)
    requires !After(Fresh(watched), ops, id).open && EverythingTaken(watched, ops, id, taken)
    ensures var all := ops + (late + [CloseSession(id)]);
            && After(Fresh(watched), all, id).reason == After(Fresh(watched), ops, id).reason
            && EverythingTaken(watched, all, id, taken)
  {
    AfterConcat(Fresh(watched), ops, late + [CloseSession(id)], id);
    EndedIsFinal(After(Fresh(watched), ops, id), late + [CloseSession(id)], id);
    EverythingTakenLater(watched, ops, late + [CloseSession(id)], id, taken);
  }

  lemma ReportExtend(c: Claims, id: nat, turns: seq<Turn>, used: nat, log: seq<Attempt>, poke: Option<Poke>,
                     sent: seq<Delivered>, more: seq<Delivered>, end: Outcome)
    requires used < |turns|
    requires Reported(c, id, true, turns, used, log, sent, StillRunning)
    requires more == MoreSent(c, turns[used], poke, 1 + |Schedule(turns[..used + 1], id)|)
    requires end == HandledAs(FateOf(c, turns[used], poke))
    ensures Reported(c, id, true, turns, used + 1, log + [Attempt(used, poke)], sent + more, end)
  {
    MessagesExtend(c, id, turns, log, Attempt(used, poke));
    EndExtend(c, turns, log, Attempt(used, poke), end);
    ConcatAssoc([Delivered(Heartbeat, 1)], Messages(c, id, turns, log), more);
  }

  // One pass through the loop.

  /** What the handler has in hand between two turns. */
  datatype Loop = Loop(session: Session, ops: seq<Op>, log: seq<Attempt>, sent: seq<Delivered>, end: Outcome)

  /** The others run first; then the picked case goes ahead if it is ready. */
  function AfterTurn(id: nat, c: Claims, l: Loop, t: Turn, used: nat): Loop
  {
    var s, ops := After(l.session, t.others, id), l.ops + t.others;
    match t.pick
    case ContextDone => l.(session := s, ops := ops, end := ContextEnded)
    case TickReady => AfterSend(c, l.(session := s, ops := ops), t, used, None)
    case PokeReady =>
      var l' := l.(session := Local(s, Receive(id), id), ops := ops + [Receive(id)]);
      match Peek(s)
      case WouldBlock => l'
      case ChannelClosed => l'.(end := HubEnded(s.reason))
      case Got(poke) => AfterSend(c, l', t, used, Some(poke))
  }

  function AfterSend(c: Claims, l: Loop, t: Turn, used: nat, poke: Option<Poke>): Loop
  {
    l.(log := l.log + [Attempt(used, poke)],
       sent := l.sent + MoreSent(c, t, poke, 1 + |l.ops|),
       end := HandledAs(FateOf(c, t, poke)))
  }

  /** The loop's account after `used` turns. */
  ghost predicate Account(watched: set<int>, id: nat, c: Claims, firstSendOk: bool, l: Loop,
                          turns: seq<Turn>, used: nat)
  {
    && Tracks(watched, id, l.session, l.ops, turns, used, l.log)
    && Reported(c, id, firstSendOk, turns, used, l.log, l.sent, l.end)
    && HubEndOk(watched, id, l)
    && !l.end.Unauthenticated? && !l.end.Refused?
  }

  ghost predicate HubEndOk(watched: set<int>, id: nat, l: Loop)
  {
    l.end.HubEnded? ==>
      && l.end.reason == l.session.reason != NoReason && !l.session.open
      && EverythingTaken(watched, l.ops, id, Pokes(l.log))
  }

  lemma OthersGoFirst(watched: set<int>, id: nat, s: Session, ops: seq<Op>,
                      turns: seq<Turn>, used: nat, log: seq<Attempt>)
    requires used < |turns| && Foreign(turns[used].others, id)
    requires Tracks(watched, id, s, ops, turns, used, log)
    ensures var t := turns[used];
            var s', ops' := After(s, t.others, id), ops + t.others;
            && s' == After(Fresh(watched), ops', id) && s'.taken == Pokes(log)
            && Schedule(turns[..used + 1], id) == ops' + (if t.pick.PokeReady? then [Receive(id)] else [])
            && Local(s', Receive(id), id) == After(Fresh(watched), ops' + [Receive(id)], id)
  {
    var t := turns[used];
    assert turns[..used + 1][..used] == turns[..used];
    AfterConcat(Fresh(watched), ops, t.others, id);
    ForeignKeepsTaken(s, t.others, id);
    AfterOne(Fresh(watched), ops + t.others, Receive(id), id);
  }

  /** A turn that sends nothing and does not end on the hub's account. */
  lemma QuietTurn(watched: set<int>, id: nat, c: Claims, l: Loop, l': Loop, turns: seq<Turn>, used: nat)
    requires used < |turns| && LogOk(turns, used, l.log) && !turns[used].pick.TickReady?
    requires l'.session == After(Fresh(watched), l'.ops, id) && l'.ops == Schedule(turns[..used + 1], id)
    requires Reported(c, id, true, turns, used, l.log, l.sent, StillRunning)
    requires l'.log == l.log && l'.sent == l.sent && l'.session.taken == Pokes(l.log)
    requires l'.end == StillRunning || l'.end == ContextEnded
    ensures Account(watched, id, c, true, l', turns, used + 1)
  {
    LogSkip(turns, used, l.log);
  }

  lemma {:induction false} NobodyElseCloses(turns: seq<Turn>, id: nat)
    requires forall t :: t in turns ==> Foreign(t.others, id)
    ensures CloseSession(id) !in Schedule(turns, id)
  {
    if turns != [] {
      var init, last := turns[..|turns| - 1], turns[|turns| - 1];
      assert turns == init + [last];
      assert last in turns && forall t :: t in init ==> t in turns;
      NobodyElseCloses(init, id);
    }
  }

  /** Until the handler itself closes its session, only the hub can have ended it, and it says why. */
  lemma EndHasReason(events: set<int>, ops: seq<Op>, id: nat)
    requires !After(Fresh(events), ops, id).open && CloseSession(id) !in ops
    ensures After(Fresh(events), ops, id).reason != NoReason
  {
    LocalDelivery(events, ops, id);
    var k: nat :| EndedWithAll(events, ops, id, k);
    assert ops[k] in ops;
  }

  lemma ClosedTurn(watched: set<int>, id: nat, c: Claims, l: Loop, l': Loop, turns: seq<Turn>, used: nat)
    requires used < |turns| && LogOk(turns, used, l.log) && turns[used].pick.PokeReady?
    requires forall t :: t in turns ==> Foreign(t.others, id)
    requires l'.session == After(Fresh(watched), l'.ops, id) && l'.ops == Schedule(turns[..used + 1], id)
    requires Reported(c, id, true, turns, used, l.log, l.sent, StillRunning) && Peek(l'.session) == ChannelClosed
    requires l'.log == l.log && l'.sent == l.sent && l'.session.taken == Pokes(l.log)
    requires l'.end == HubEnded(l'.session.reason)
    ensures Account(watched, id, c, true, l', turns, used + 1)
  {
    ClosedMeansDrained(watched, l'.ops, id);
    assert forall t :: t in turns[..used + 1] ==> t in turns;
    NobodyElseCloses(turns[..used + 1], id);
    EndHasReason(watched, l'.ops, id);
    LogSkip(turns, used, l.log);
  }

  lemma SendingTurn(watched: set<int>, id: nat, c: Claims, l: Loop, turns: seq<Turn>, used: nat, poke: Option<Poke>)
    requires used < |turns| && LogOk(turns, used, l.log)
    requires turns[used].pick == if poke.Some? then PokeReady else TickReady
    requires l.session == After(Fresh(watched), l.ops, id) && l.ops == Schedule(turns[..used + 1], id)
    requires l.session.taken == Pokes(l.log) + (if poke.Some? then [poke.value] else [])
    requires Reported(c, id, true, turns, used, l.log, l.sent, StillRunning)
    ensures Account(watched, id, c, true, AfterSend(c, l, turns[used], used, poke), turns, used + 1)
  {
    LogExtend(turns, used, l.log, poke);
    PokesExtend(l.log, Attempt(used, poke));
    ReportExtend(c, id, turns, used, l.log, poke, l.sent,
                 MoreSent(c, turns[used], poke, 1 + |l.ops|), HandledAs(FateOf(c, turns[used], poke)));
  }

  lemma PokeTurn(watched: set<int>, id: nat, c: Claims, l: Loop, turns: seq<Turn>, used: nat)
    requires used < |turns| && turns[used].pick.PokeReady? && forall t :: t in turns ==> Foreign(t.others, id)
    requires Account(watched, id, c, true, l, turns, used) && l.end.StillRunning?
    ensures Account(watched, id, c, true, AfterTurn(id, c, l, turns[used], used), turns, used + 1)
  {
    var t := turns[used];
    OthersGoFirst(watched, id, l.session, l.ops, turns, used, l.log);
    var s := After(l.session, t.others, id);
    var l' := AfterTurn(id, c, l, t, used);
    match Peek(s) {
      case WouldBlock => QuietTurn(watched, id, c, l, l', turns, used);
      case ChannelClosed => ClosedTurn(watched, id, c, l, l', turns, used);
      case Got(poke) =>
        var ready := l.(session := Local(s, Receive(id), id), ops := l.ops + t.others + [Receive(id)]);
        SendingTurn(watched, id, c, ready, turns, used, Some(poke));
    }
  }

  /** One turn keeps the account. */
  lemma TurnKeepsAccount(watched: set<int>, id: nat, c: Claims, l: Loop, turns: seq<Turn>, used: nat)
    requires used < |turns| && forall t :: t in turns ==> Foreign(t.others, id)
    requires Account(watched, id, c, true, l, turns, used) && l.end.StillRunning?
    ensures Account(watched, id, c, true, AfterTurn(id, c, l, turns[used], used), turns, used + 1)
  {
    var t := turns[used];
    assert t in turns;
    match t.pick {
      case PokeReady => PokeTurn(watched, id, c, l, turns, used);
      case ContextDone =>
        OthersGoFirst(watched, id, l.session, l.ops, turns, used, l.log);
        QuietTurn(watched, id, c, l, AfterTurn(id, c, l, t, used), turns, used);
      case TickReady =>
        OthersGoFirst(watched, id, l.session, l.ops, turns, used, l.log);
        var ready := l.(session := After(l.session, t.others, id), ops := l.ops + t.others);
        SendingTurn(watched, id, c, ready, turns, used, None);
    }
  }

  /** One turn keeps the positions right. */
  lemma TurnTakesInTime(watched: set<int>, id: nat, c: Claims, l: Loop, turns: seq<Turn>, used: nat)
    requires used < |turns| && TakenInTime(watched, id, turns, l.log)
    requires var l' := AfterTurn(id, c, l, turns[used], used);
             && l'.session == After(Fresh(watched), Schedule(turns[..used + 1], id), id)
             && l'.session.taken == Pokes(l'.log)
    ensures TakenInTime(watched, id, turns, AfterTurn(id, c, l, turns[used], used).log)
  {
    var l' := AfterTurn(id, c, l, turns[used], used);
    if l'.log != l.log {
      var a := l'.log[|l.log|];
      assert l'.log == l.log + [a] && a.turn == used;
      TakenInTimeExtend(watched, id, turns, l.log, a, l'.session.taken);
    }
  }

  /**
   What a turn does, told from the session `s` as the others leave it: it ends on cancellation, and on
   a channel that is closed and empty with that session's reason; a channel that is open and empty
   lets it go on; otherwise the oldest buffered poke, or a heartbeat, is what it sets out to send.
   */
  ghost predicate TurnPlainly(l: Loop, t: Turn, s: Session, used: nat, l': Loop)
  {
    match t.pick
    case ContextDone => l'.end == ContextEnded && l'.log == l.log && l'.sent == l.sent
    case TickReady => l'.log == l.log + [Attempt(used, None)]
    case PokeReady =>
      if s.buffer != [] then l'.log == l.log + [Attempt(used, Some(s.buffer[0]))]
      else l'.log == l.log && l'.sent == l.sent && l'.end == if s.open then l.end else HubEnded(s.reason)
  }

  /** The select and the case it picks, as the program runs them. */
  method OneTurn(id: nat, c: Claims, l: Loop, t: Turn, used: nat) returns (l': Loop)
    requires l.end.StillRunning?
    ensures l' == AfterTurn(id, c, l, t, used)
    ensures TurnPlainly(l, t, After(l.session, t.others, id), used, l')
  {
    l' := l.(session := After(l.session, t.others, id), ops := l.ops + t.others);
    var poke: Option<Poke> := None;
    match t.pick {
      case ContextDone =>
        l' := l'.(end := ContextEnded);
        return;
      case TickReady =>
      case PokeReady =>
        var received := Peek(l'.session);
        l' := l'.(session := Local(l'.session, Receive(id), id), ops := l'.ops + [Receive(id)]);
        match received {
          case WouldBlock => return;
          case ChannelClosed =>
            l' := l'.(end := HubEnded(l'.session.reason));
            return;
          case Got(p) => poke := Some(p);
        }
    }
    var end, more := Handle(c, t, poke, 1 + |l'.ops|);
    l' := l'.(log := l'.log + [Attempt(used, poke)], sent := l'.sent + more, end := end);
  }

  function MoreSent(c: Claims, t: Turn, poke: Option<Poke>, after: nat): seq<Delivered>
  {
    if FateOf(c, t, poke) == Sent then [Delivered(MessageFor(poke), after)] else []
  }

  /** The body the poke case and the tick case share: check the token, filter, send. */
  method Handle(c: Claims, t: Turn, poke: Option<Poke>, after: nat) returns (end: Outcome, more: seq<Delivered>)
    ensures more == MoreSent(c, t, poke, after)
    ensures end == HandledAs(FateOf(c, t, poke))
  {
    end, more := StillRunning, [];
    if Expired(c, t.now) {
      end := TokenExpired;
    } else if poke.Some? && t.visibility != Shown {
    } else if !t.sendOk {
      end := SendFailed;
    } else {
      more := [Delivered(MessageFor(poke), after)];
    }
  }
}
