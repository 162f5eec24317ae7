/**
 When waiting never ends: exactly which states of the hub hold up a connection's lock,
 and with it every Execute that has looked this connection up, for ever.
 */
module HubBlocking {
  import opened HubProtocols

  /**
   The connection's lock is held to put a value into a slot that is full, and the
   execution that would empty it has given up and is itself waiting for the lock.
   */
  predicate Stuck(h: Hub, c: ConnId, op: OpId) {
    c in h.conns && op in h.execs && h.execs[op].conn == c && h.execs[op].phase.Leaving? && SlotFull(h.execs[op]) &&
    (Answers(h.conns[c].serving, op) || (h.conns[c].holder.Closer? && op in h.conns[c].holder.remaining))
  }

  predicate Answers(s: Serving, op: OpId) {
    s.Delivering? && s.message.ExecuteResult? && s.message.op == op
  }

  lemma StuckAcrossCalls(h: Hub, ev: Event, c: ConnId, op: OpId)
    requires Enabled(h, ev) && Stuck(h, c, op) && Calls(ev) && !ev.Track? && !ev.Untrack?
    ensures Stuck(Next(h, ev), c, op)
  {
  }

  lemma StuckAcrossTracking(h: Hub, ev: Event, c: ConnId, op: OpId)
    requires LocksOk(h) && Enabled(h, ev) && Stuck(h, c, op) && (ev.Track? || ev.Untrack?)
    ensures Stuck(Next(h, ev), c, op)
  {
    assert ConnOk(h, c);
  }

  lemma StuckAcrossServing(h: Hub, ev: Event, c: ConnId, op: OpId)
    requires Enabled(h, ev) && Stuck(h, c, op) && Serves(ev)
    ensures Stuck(Next(h, ev), c, op)
  {
  }

  lemma StuckAcrossClosing(h: Hub, ev: Event, c: ConnId, op: OpId)
    requires LocksOk(h) && Enabled(h, ev) && Stuck(h, c, op) && (ev.CloseBegin? || ev.ClosePut? || ev.CloseEnd?)
    ensures Stuck(Next(h, ev), c, op)
  {
    assert ConnOk(h, c);
  }

  lemma StuckAcrossDelivery(h: Hub, ev: Event, c: ConnId, op: OpId)
    requires LocksOk(h) && Enabled(h, ev) && Stuck(h, c, op) && (ev.DeliverBegin? || ev.DeliverEnd?)
    ensures Stuck(Next(h, ev), c, op)
  {
    assert ConnOk(h, c) && ConnOk(h, ev.c);
  }

  lemma StuckStep(h: Hub, ev: Event, c: ConnId, op: OpId)
    requires LocksOk(h) && Enabled(h, ev) && Stuck(h, c, op)
    ensures Stuck(Next(h, ev), c, op)
  {
    if ev.Track? || ev.Untrack? {
      StuckAcrossTracking(h, ev, c, op);
    } else if Calls(ev) {
      StuckAcrossCalls(h, ev, c, op);
    } else if Serves(ev) {
      StuckAcrossServing(h, ev, c, op);
    } else if ev.DeliverBegin? || ev.DeliverEnd? {
      StuckAcrossDelivery(h, ev, c, op);
    } else {
      StuckAcrossClosing(h, ev, c, op);
    }
  }

  lemma StuckCannotLeave(h: Hub, c: ConnId, op: OpId)
    requires LocksOk(h) && Stuck(h, c, op)
    ensures !Enabled(h, Untrack(op))
  {
    assert ConnOk(h, c);
  }

  /** Then Execute never returns. */
  lemma {:induction false} StuckForever(hs: seq<Hub>, evs: seq<Event>, k: nat, l: nat, c: ConnId, op: OpId)
    requires Run(hs, evs) && k <= l < |hs| && Stuck(hs[k], c, op)
    ensures Stuck(hs[l], c, op) && !Enabled(hs[l], Untrack(op))
    decreases l
  {
    if k < l {
      StuckForever(hs, evs, k, l - 1, c, op);
      RunKeeps(hs, evs, l - 1);
      assert StepAt(hs, evs, l - 1);
      StuckStep(hs[l - 1], evs[l - 1], c, op);
    }
    RunKeeps(hs, evs, l);
    StuckCannotLeave(hs[l], c, op);
  }

  // ----- continuations ---------------------------------------------------------------------

  predicate Legal(h: Hub, evs: seq<Event>)
    decreases |evs|
  {
    evs == [] || (Enabled(h, evs[0]) && Legal(Next(h, evs[0]), evs[1..]))
  }

  function After(h: Hub, evs: seq<Event>): Hub
    requires Legal(h, evs)
    decreases |evs|
  {
    if evs == [] then h else After(Next(h, evs[0]), evs[1..])
  }

  lemma OneFirst(h: Hub, ev: Event, evs: seq<Event>)
    requires Enabled(h, ev) && Legal(Next(h, ev), evs)
    ensures Legal(h, [ev] + evs) && After(h, [ev] + evs) == After(Next(h, ev), evs)
  {
    assert ([ev] + evs)[1..] == evs;
  }

  lemma JustOne(h: Hub, ev: Event)
    requires Enabled(h, ev)
    ensures Legal(h, [ev]) && After(h, [ev]) == Next(h, ev)
  {
    OneFirst(h, ev, []);
    assert [ev] + [] == [ev];
  }

  lemma {:induction false} Continued(h: Hub, a: seq<Event>, b: seq<Event>)
    requires Legal(h, a) && Legal(After(h, a), b)
    ensures Legal(h, a + b) && After(h, a + b) == After(After(h, a), b)
    decreases |a|
  {
    if a == [] {
      assert a + b == b;
    } else {
      Continued(Next(h, a[0]), a[1..], b);
      OneFirst(h, a[0], a[1..] + b);
      assert [a[0]] + (a[1..] + b) == a + b;
    }
  }

  lemma {:induction false} AfterKeeps(h: Hub, evs: seq<Event>)
    requires Inv(h) && Legal(h, evs)
    ensures Inv(After(h, evs))
    decreases |evs|
  {
    if evs != [] {
      StepKeeps(h, evs[0]);
      AfterKeeps(Next(h, evs[0]), evs[1..]);
    }
  }

  predicate LockFree(h: Hub, c: ConnId) {
    c in h.conns && h.conns[c].holder.Free?
  }

  /** This continuation leaves the lock free. */
  predicate Frees(h: Hub, evs: seq<Event>, c: ConnId) {
    Legal(h, evs) && LockFree(After(h, evs), c)
  }

  predicate Returned(h: Hub, op: OpId) {
    op in h.execs && h.execs[op].phase.Returned?
  }

  /** With this continuation the Execute has returned. */
  predicate Ends(h: Hub, evs: seq<Event>, op: OpId) {
    Legal(h, evs) && Returned(After(h, evs), op)
  }

  /** An execution on this connection that has not returned. */
  predicate Runs(h: Hub, c: ConnId, op: OpId) {
    op in h.execs && h.execs[op].conn == c && !h.execs[op].phase.Returned?
  }

  lemma RunsOn(h: Hub, ev: Event, c: ConnId, op: OpId)
    requires Enabled(h, ev) && Runs(h, c, op) && ev != Untrack(op)
    ensures Runs(Next(h, ev), c, op)
  {
  }

  lemma {:induction false} StuckAlong(h: Hub, evs: seq<Event>, c: ConnId, op: OpId, other: OpId)
    requires Inv(h) && Legal(h, evs) && Stuck(h, c, op) && Runs(h, c, other)
    ensures !LockFree(After(h, evs), c) && Runs(After(h, evs), c, other)
    decreases |evs|
  {
    NotFree(h, c, op);
    if evs != [] {
      StuckStep(h, evs[0], c, op);
      StepKeeps(h, evs[0]);
      RunsOn(h, evs[0], c, other);
      StuckAlong(Next(h, evs[0]), evs[1..], c, op, other);
    }
  }

  lemma NotFree(h: Hub, c: ConnId, op: OpId)
    requires LocksOk(h) && Stuck(h, c, op)
    ensures !LockFree(h, c) && Runs(h, c, op)
  {
    assert ConnOk(h, c);
  }

  // ----- the other direction: a lock that can be freed ---------------------------------------

  /** The holder of the connection's lock is to put something into this operation's slot. */
  predicate PutsInto(h: Hub, c: ConnId, op: OpId) {
    c in h.conns &&
    (Answers(h.conns[c].serving, op) || (h.conns[c].holder.Closer? && op in h.conns[c].holder.remaining))
  }

  /** The same connections and executions, but for the slot of one. */
  predicate OnlySlot(h: Hub, h': Hub, op: OpId) {
    h'.registry == h.registry && h'.lock == h.lock && h'.conns == h.conns && h'.execs.Keys == h.execs.Keys &&
    op in h.execs && !SlotFull(h'.execs[op]) &&
    h'.execs[op].conn == h.execs[op].conn && h'.execs[op].phase.Returned? == h.execs[op].phase.Returned? &&
    forall q | q in h.execs && q != op :: h'.execs[q] == h.execs[q]
  }

  /** The caller that the holder waits for takes what is there. */
  lemma MakesRoom(h: Hub, c: ConnId, op: OpId) returns (evs: seq<Event>)
    requires Inv(h) && PutsInto(h, c, op) && !Stuck(h, c, op)
    ensures Legal(h, evs) && OnlySlot(h, After(h, evs), op)
  {
    assert ConnOk(h, c) && Keeps(h, op);
    if !SlotFull(h.execs[op]) {
      evs := [];
    } else if h.execs[op].phase.Waiting? {
      evs := [TakeReply(op)];
      Takes(h, op);
    } else {
      evs := [Send(op, true)] + [TakeReply(op)];
      SendsAndTakes(h, op);
    }
  }

  lemma Takes(h: Hub, op: OpId)
    requires op in h.execs && PhaseOk(h.execs[op]) && SlotFull(h.execs[op]) && h.execs[op].phase.Waiting?
    ensures Legal(h, [TakeReply(op)]) && OnlySlot(h, After(h, [TakeReply(op)]), op)
  {
    JustOne(h, TakeReply(op));
  }

  lemma SendsAndTakes(h: Hub, op: OpId)
    requires op in h.execs && PhaseOk(h.execs[op]) && SlotFull(h.execs[op]) && h.execs[op].phase.Tracked?
    ensures var evs := [Send(op, true)] + [TakeReply(op)]; Legal(h, evs) && OnlySlot(h, After(h, evs), op)
  {
    Takes(Next(h, Send(op, true)), op);
    OneFirst(h, Send(op, true), [TakeReply(op)]);
  }

  /** Nothing but this connection, its executions and whoever closes it has moved; who closes it is through. */
  predicate LetGo(h: Hub, h': Hub, c: ConnId) {
    c in h.conns && h'.registry == h.registry && h'.lock == h.lock &&
    h'.conns.Keys == h.conns.Keys && h'.execs.Keys == h.execs.Keys &&
    (forall q | q in h.execs :: h'.execs[q].conn == h.execs[q].conn) &&
    (forall q | q in h.execs && h.execs[q].conn != c :: h'.execs[q] == h.execs[q]) &&
    forall d | d in h.conns && d != c ::
      h'.conns[d] ==
        if h.conns[c].holder.Closer? && h.conns[c].holder.who == d
        then h.conns[d].(serving := Closed(h.conns[d].serving)) else h.conns[d]
  }

  /** A holder that is not stuck can be brought to let go. */
  lemma Unblocks(h: Hub, c: ConnId) returns (evs: seq<Event>)
    requires Inv(h) && c in h.conns && forall op :: !Stuck(h, c, op)
    ensures Frees(h, evs, c) && LetGo(h, After(h, evs), c)
    decreases if h.conns[c].holder.Closer? then |h.conns[c].holder.remaining| else 0
  {
    var conn := h.conns[c];
    assert ConnOk(h, c);
    if conn.holder.Free? {
      evs := [];
    } else if conn.holder.Receiver? {
      evs := Delivers(h, c);
    } else if conn.holder.remaining == {} {
      evs := [CloseEnd(c)];
      JustOne(h, CloseEnd(c));
    } else {
      var put := PutsLoss(h, c);
      AfterKeeps(h, put);
      var rest := Unblocks(After(h, put), c);
      Continued(h, put, rest);
      evs := put + rest;
      LetGoLater(h, After(h, put), After(After(h, put), rest), c);
    }
  }

  /** The closer gets one loss put, for which it may have to wait for room. */
  lemma PutsLoss(h: Hub, c: ConnId) returns (evs: seq<Event>)
    requires Inv(h) && c in h.conns && h.conns[c].holder.Closer? && h.conns[c].holder.remaining != {}
    requires forall op :: !Stuck(h, c, op)
    ensures Legal(h, evs) && PutOne(h, After(h, evs), c) && forall q :: !Stuck(After(h, evs), c, q)
    ensures |After(h, evs).conns[c].holder.remaining| < |h.conns[c].holder.remaining|
  {
    var op :| op in h.conns[c].holder.remaining;
    assert ConnOk(h, c);
    var room := MakesRoom(h, c, op);
    var h1 := After(h, room);
    JustOne(h1, ClosePut(c, op));
    Continued(h, room, [ClosePut(c, op)]);
    evs := room + [ClosePut(c, op)];
    NoneStuck(h, h1, c, op);
    PutsOne(h, h1, c, op);
  }

  /** One loss put: nothing else has moved, and the same closer goes on. */
  predicate PutOne(h: Hub, h2: Hub, c: ConnId) {
    c in h.conns && h.conns[c].holder.Closer? && h2.registry == h.registry && h2.lock == h.lock &&
    h2.conns.Keys == h.conns.Keys && h2.execs.Keys == h.execs.Keys &&
    (forall q | q in h.execs :: h2.execs[q].conn == h.execs[q].conn) &&
    (forall q | q in h.execs && h.execs[q].conn != c :: h2.execs[q] == h.execs[q]) &&
    (forall d | d in h.conns && d != c :: h2.conns[d] == h.conns[d]) &&
    h2.conns[c].holder.Closer? && h2.conns[c].holder.who == h.conns[c].holder.who
  }

  lemma PutsOne(h: Hub, h1: Hub, c: ConnId, op: OpId)
    requires LocksOk(h) && c in h.conns && h.conns[c].holder.Closer? && op in h.conns[c].holder.remaining
    requires OnlySlot(h, h1, op) && Enabled(h1, ClosePut(c, op))
    ensures PutOne(h, Next(h1, ClosePut(c, op)), c)
  {
    assert ConnOk(h, c);
  }

  lemma LetGoLater(h: Hub, h2: Hub, h': Hub, c: ConnId)
    requires PutOne(h, h2, c) && LetGo(h2, h', c)
    ensures LetGo(h, h', c)
  {
  }

  lemma Delivers(h: Hub, c: ConnId) returns (evs: seq<Event>)
    requires Inv(h) && c in h.conns && h.conns[c].holder.Receiver? && forall op :: !Stuck(h, c, op)
    ensures Frees(h, evs, c) && LetGo(h, After(h, evs), c)
  {
    assert ConnOk(h, c);
    var m := h.conns[c].serving.message;
    if m.StageUpdate? {
      evs := [DeliverEnd(c)];
      JustOne(h, DeliverEnd(c));
      EndsDelivery(h, h, c);
    } else {
      var room := MakesRoom(h, c, m.op);
      JustOne(After(h, room), DeliverEnd(c));
      Continued(h, room, [DeliverEnd(c)]);
      evs := room + [DeliverEnd(c)];
      EndsDelivery(h, After(h, room), c);
    }
  }

  lemma EndsDelivery(h: Hub, h1: Hub, c: ConnId)
    requires LocksOk(h) && c in h.conns && h.conns[c].holder.Receiver? && Enabled(h1, DeliverEnd(c))
    requires h1 == h || OnlySlot(h, h1, h.conns[c].serving.message.op)
    ensures LockFree(Next(h1, DeliverEnd(c)), c) && LetGo(h, Next(h1, DeliverEnd(c)), c)
  {
    assert ConnOk(h, c);
    OnlyTracked(h1, c);
    LetsGo(h, h1, Next(h1, DeliverEnd(c)), c, h.conns[c].serving.message.op);
  }

  /** The connection and the operations tracked on it, or named by its message, have changed. */
  predicate Within(h: Hub, h': Hub, c: ConnId, op: OpId) {
    c in h.conns && c in h'.conns && h'.registry == h.registry && h'.lock == h.lock && h'.execs.Keys == h.execs.Keys &&
    h'.conns == h.conns[c := h'.conns[c]] && (forall q | q in h.execs :: h'.execs[q].conn == h.execs[q].conn) &&
    forall q | q in h.execs && q !in h.conns[c].pending && q != op :: h'.execs[q] == h.execs[q]
  }

  /** The end of a delivery touches the connection and the operations tracked on it. */
  lemma OnlyTracked(h1: Hub, c: ConnId)
    requires Enabled(h1, DeliverEnd(c))
    ensures var h' := Next(h1, DeliverEnd(c)); Within(h1, h', c, h1.conns[c].serving.message.op) && LockFree(h', c)
  {
  }

  lemma LetsGo(h: Hub, h1: Hub, h': Hub, c: ConnId, op: OpId)
    requires (h1 == h || OnlySlot(h, h1, op)) && Within(h1, h', c, op) && h1.conns[c].holder.Receiver?
    requires forall q | q in h.execs && (q == op || q in h.conns[c].pending) :: h.execs[q].conn == c
    ensures LetGo(h, h', c)
  {
  }

  lemma NoneStuck(h: Hub, h1: Hub, c: ConnId, op: OpId)
    requires LocksOk(h) && c in h.conns && h.conns[c].holder.Closer? && op in h.conns[c].holder.remaining
    requires OnlySlot(h, h1, op) && Enabled(h1, ClosePut(c, op)) && forall q :: !Stuck(h, c, q)
    ensures var h2 := Next(h1, ClosePut(c, op));
            c in h2.conns && h2.conns[c].holder.Closer? &&
            |h2.conns[c].holder.remaining| < |h.conns[c].holder.remaining| && forall q :: !Stuck(h2, c, q)
  {
    var h2 := Next(h1, ClosePut(c, op));
    assert ConnOk(h, c);
    forall q
      ensures !Stuck(h2, c, q)
    {
      assert !Stuck(h, c, q);
    }
  }

  /**
   A connection's lock can still become free if and only if it is not held to put
   something into the full slot of an execution that is itself on its way out.
   */
  lemma LockFreedExactly(h: Hub, c: ConnId)
    requires Inv(h) && c in h.conns
    ensures (exists evs :: Frees(h, evs, c)) <==> forall op :: !Stuck(h, c, op)
  {
    if forall op :: !Stuck(h, c, op) {
      var evs := Unblocks(h, c);
      assert Frees(h, evs, c);
    } else {
      var op :| Stuck(h, c, op);
      NotFree(h, c, op);
      forall evs | Legal(h, evs)
        ensures !Frees(h, evs, c)
      {
        StuckAlong(h, evs, c, op, op);
      }
    }
  }

  /** With the lock free, an execution can be brought to its end. */
  lemma Finishes(h: Hub, c: ConnId, op: OpId) returns (evs: seq<Event>)
    requires Inv(h) && LockFree(h, c) && Runs(h, c, op)
    ensures Ends(h, evs, op)
    decreases if h.execs[op].phase.Found? then 2 else if h.execs[op].phase.Leaving? then 0 else 1
  {
    var ev := match h.execs[op].phase
      case Found => Track(op)
      case Tracked => Send(op, false)
      case Waiting => Expire(op)
      case _ => Untrack(op);
    if ev.Untrack? {
      evs := [ev];
      JustOne(h, ev);
    } else {
      StepKeeps(h, ev);
      var rest := Finishes(Next(h, ev), c, op);
      OneFirst(h, ev, rest);
      evs := [ev] + rest;
    }
  }

  lemma {:induction false} RunsOrReturns(h: Hub, evs: seq<Event>, c: ConnId, op: OpId)
    requires Legal(h, evs) && op in h.execs && h.execs[op].conn == c
    ensures var h' := After(h, evs); op in h'.execs && h'.execs[op].conn == c
    decreases |evs|
  {
    if evs != [] {
      SameConn(h, evs[0], op);
      RunsOrReturns(Next(h, evs[0]), evs[1..], c, op);
    }
  }

  lemma SameConn(h: Hub, ev: Event, op: OpId)
    requires Enabled(h, ev) && op in h.execs
    ensures op in Next(h, ev).execs && Next(h, ev).execs[op].conn == h.execs[op].conn
  {
  }

  /** An Execute that has looked its connection up and not returned can still return if and only if that connection is not stuck. */
  lemma ReturnsExactly(h: Hub, c: ConnId, op: OpId)
    requires Inv(h) && Runs(h, c, op)
    ensures (exists evs :: Ends(h, evs, op)) <==> forall q :: !Stuck(h, c, q)
  {
    assert Keeps(h, op);
    if forall q :: !Stuck(h, c, q) {
      var evs := RunsToItsEnd(h, c, op);
      assert Ends(h, evs, op);
    } else {
      var q :| Stuck(h, c, q);
      forall evs | Legal(h, evs)
        ensures !Ends(h, evs, op)
      {
        StuckAlong(h, evs, c, q, op);
      }
    }
  }

  lemma RunsToItsEnd(h: Hub, c: ConnId, op: OpId) returns (evs: seq<Event>)
    requires Inv(h) && c in h.conns && Runs(h, c, op) && forall q :: !Stuck(h, c, q)
    ensures Ends(h, evs, op)
  {
    evs := Unblocks(h, c);
    var h1 := After(h, evs);
    AfterKeeps(h, evs);
    RunsOrReturns(h, evs, c, op);
    if !Returned(h1, op) {
      var rest := Finishes(h1, c, op);
      Continued(h, evs, rest);
      evs := evs + rest;
    }
  }

  // ----- it does happen -------------------------------------------------------------------------

  ghost predicate Reachable(h: Hub) {
    exists hs, evs :: Run(hs, evs) && hs[|evs|] == h
  }

  lemma ReachableNext(h: Hub, ev: Event)
    requires Reachable(h) && Enabled(h, ev)
    ensures Reachable(Next(h, ev))
  {
    var hs, evs :| Run(hs, evs) && hs[|evs|] == h;
    var hs', evs' := hs + [Next(h, ev)], evs + [ev];
    forall i | 0 <= i < |evs'|
      ensures StepAt(hs', evs', i)
    {
      assert i < |evs| ==> StepAt(hs, evs, i);
    }
    assert Run(hs', evs');
  }

  lemma IdleIsReachable()
    ensures Reachable(Idle)
  {
    assert Run([Idle], []);
  }

  /** A hub with one connection, on which one operation may be in flight. */
  function OneConn(conn: Conn, execs: map<OpId, Exec>): Hub {
    Hub(map[7 := 0], Unlocked, map[0 := conn], execs)
  }

  lemma Connects()
    ensures Reachable(OneConn(Conn(7, Open, {}, false, Free, []), map[]))
  {
    IdleIsReachable();
    var h1 := Next(Idle, Connect(0, 7));
    ReachableNext(Idle, Connect(0, 7));
    var h2 := Next(h1, AttachBegin(0));
    ReachableNext(h1, AttachBegin(0));
    ReachableNext(h2, AttachEnd(0));
    assert Next(h2, AttachEnd(0)) == OneConn(Conn(7, Open, {}, false, Free, []), map[]);
  }

  lemma Asks()
    ensures Reachable(OneConn(Conn(7, Open, {1}, false, Free, []), map[1 := Exec(0, Waiting, [], [], 0, 0, 0)]))
  {
    Connects();
    var h0 := OneConn(Conn(7, Open, {}, false, Free, []), map[]);
    ReachableNext(h0, Start(1, 7));
    var h1 := OneConn(Conn(7, Open, {}, false, Free, []), map[1 := Exec(0, Found, [], [], 0, 0, 0)]);
    assert Next(h0, Start(1, 7)) == h1;
    Tracks(h1);
  }

  lemma Tracks(h1: Hub)
    requires Reachable(h1)
    requires h1 == OneConn(Conn(7, Open, {}, false, Free, []), map[1 := Exec(0, Found, [], [], 0, 0, 0)])
    ensures Reachable(OneConn(Conn(7, Open, {1}, false, Free, []), map[1 := Exec(0, Waiting, [], [], 0, 0, 0)]))
  {
    ReachableNext(h1, Track(1));
    var h2 := OneConn(Conn(7, Open, {1}, false, Free, []), map[1 := Exec(0, Tracked, [], [], 0, 0, 0)]);
    assert {} + {1} == {1};
    assert Next(h1, Track(1)) == h2;
    ReachableNext(h2, Send(1, true));
    assert Next(h2, Send(1, true)) == OneConn(Conn(7, Open, {1}, false, Free, []), map[1 := Exec(0, Waiting, [], [], 0, 0, 0)]);
  }

  /** The answer lies in the slot, and the caller has not looked yet. */
  lemma IsAnswered(m: Message)
    requires m == ExecuteResult(1, 5)
    ensures Reachable(OneConn(Conn(7, Open, {1}, false, Free, [m]), map[1 := Exec(0, Waiting, [], [Answer(5)], 0, 0, 1)]))
  {
    Asks();
    var e := Exec(0, Waiting, [], [], 0, 0, 0);
    var h0 := OneConn(Conn(7, Open, {1}, false, Free, []), map[1 := e]);
    ReachableNext(h0, Receive(0, m));
    var h1 := OneConn(Conn(7, Received(m), {1}, false, Free, []), map[1 := e]);
    assert Next(h0, Receive(0, m)) == h1;
    ReachableNext(h1, DeliverBegin(0));
    var h2 := OneConn(Conn(7, Delivering(m), {1}, false, Receiver, []), map[1 := e]);
    assert Next(h1, DeliverBegin(0)) == h2;
    ReachableNext(h2, DeliverEnd(0));
    IsDelivered(h2, m);
  }

  lemma IsDelivered(h2: Hub, m: Message)
    requires m == ExecuteResult(1, 5)
    requires h2 == OneConn(Conn(7, Delivering(m), {1}, false, Receiver, []), map[1 := Exec(0, Waiting, [], [], 0, 0, 0)])
    ensures Enabled(h2, DeliverEnd(0)) && Next(h2, DeliverEnd(0)) ==
              OneConn(Conn(7, Open, {1}, false, Free, [m]), map[1 := Exec(0, Waiting, [], [Answer(5)], 0, 0, 1)])
  {
    var h3 := Next(h2, DeliverEnd(0));
    assert [] + [m] == [m] && [] + [Answer(5)] == [Answer(5)];
    assert h3.execs.Keys == {1} && h3.execs == map[1 := h3.execs[1]];
    assert h3.conns == map[0 := h3.conns[0]];
  }

  /** A reply that arrives as the deadline expires, and then a disconnect, is enough. */
  lemma LateReplyThenDisconnect()
    ensures exists h :: Reachable(h) && Stuck(h, 0, 1)
  {
    IsAnswered(ExecuteResult(1, 5));
    var h0 := OneConn(Conn(7, Open, {1}, false, Free, [ExecuteResult(1, 5)]), map[1 := Exec(0, Waiting, [], [Answer(5)], 0, 0, 1)]);
    var h1 := Next(h0, Expire(1));
    ReachableNext(h0, Expire(1));
    var h2 := Next(h1, Disconnect(0));
    ReachableNext(h1, Disconnect(0));
    var h3 := Next(h2, CloseBegin(0, 0));
    ReachableNext(h2, CloseBegin(0, 0));
    assert Stuck(h3, 0, 1);
  }
}
