/**
 When the whole hub stands still: attaching holds the hub's own lock while it closes the
 connection it supersedes, so a connection that is stuck can stop every node.
 */
module HubStandstill {
  import opened HubProtocols
  import opened HubBlocking

  /** The hub's lock is held by a connection that waits to close its stuck predecessor. */
  ghost predicate HubStuck(h: Hub) {
    h.lock.LockedBy? && h.lock.conn in h.conns && Waits(h, h.lock.conn) &&
    exists op :: Stuck(h, Predecessor(h, h.lock.conn), op)
  }

  /** Attaching, and yet to close the connection that is registered for the node. */
  predicate Waits(h: Hub, w: ConnId)
    requires w in h.conns
  {
    h.conns[w].serving == Attaching(false) && Superseded(h, w)
  }

  function Predecessor(h: Hub, w: ConnId): ConnId
    requires w in h.conns && Superseded(h, w)
  {
    h.registry[h.conns[w].node]
  }

  predicate Unlocks(h: Hub, evs: seq<Event>) {
    Legal(h, evs) && After(h, evs).lock.Unlocked?
  }

  // ----- it lasts for ever --------------------------------------------------------------------

  lemma HubStuckStep(h: Hub, ev: Event)
    requires Inv(h) && HubStuck(h) && Enabled(h, ev)
    ensures HubStuck(Next(h, ev)) && Next(h, ev).lock == h.lock
  {
    var w := h.lock.conn;
    var c := Predecessor(h, w);
    var op :| Stuck(h, c, op);
    StuckStep(h, ev, c, op);
    StaysWaiting(h, ev, w, op);
  }

  lemma StaysWaiting(h: Hub, ev: Event, w: ConnId, op: OpId)
    requires LocksOk(h) && h.lock == LockedBy(w) && w in h.conns && Waits(h, w) && Stuck(h, Predecessor(h, w), op)
    requires Enabled(h, ev)
    ensures var h' := Next(h, ev);
            h'.lock == h.lock && w in h'.conns && Waits(h', w) && Predecessor(h', w) == Predecessor(h, w)
  {
    assert ConnOk(h, w) && ConnOk(h, Predecessor(h, w));
    if Calls(ev) {
      WaitsAcrossCalls(h, ev, w);
    } else if Serves(ev) {
      WaitsAcrossServing(h, ev, w);
    } else {
      WaitsAcrossClosing(h, ev, w, op);
    }
  }

  lemma WaitsAcrossCalls(h: Hub, ev: Event, w: ConnId)
    requires w in h.conns && Waits(h, w) && Enabled(h, ev) && Calls(ev)
    ensures var h' := Next(h, ev);
            h'.lock == h.lock && w in h'.conns && Waits(h', w) && Predecessor(h', w) == Predecessor(h, w)
  {
  }

  lemma WaitsAcrossServing(h: Hub, ev: Event, w: ConnId)
    requires LocksOk(h) && h.lock == LockedBy(w) && w in h.conns && Waits(h, w) && Enabled(h, ev) && Serves(ev)
    ensures var h' := Next(h, ev);
            h'.lock == h.lock && w in h'.conns && Waits(h', w) && Predecessor(h', w) == Predecessor(h, w)
  {
    OneAttaches(h, w);
  }

  lemma OneAttaches(h: Hub, w: ConnId)
    requires LocksOk(h) && h.lock == LockedBy(w)
    ensures forall d | d in h.conns && h.conns[d].serving.Attaching? :: d == w
  {
    forall d | d in h.conns && h.conns[d].serving.Attaching?
      ensures d == w
    {
      assert ConnOk(h, d);
    }
  }

  lemma WaitsAcrossClosing(h: Hub, ev: Event, w: ConnId, op: OpId)
    requires LocksOk(h) && h.lock == LockedBy(w) && w in h.conns && Waits(h, w) && Stuck(h, Predecessor(h, w), op)
    requires Enabled(h, ev) && !Calls(ev) && !Serves(ev)
    ensures var h' := Next(h, ev);
            h'.lock == h.lock && w in h'.conns && Waits(h', w) && Predecessor(h', w) == Predecessor(h, w)
  {
    assert ConnOk(h, w) && ConnOk(h, Predecessor(h, w)) && ConnOk(h, ev.c);
  }

  lemma {:induction false} HubStuckAlong(h: Hub, evs: seq<Event>)
    requires Inv(h) && HubStuck(h) && Legal(h, evs)
    ensures HubStuck(After(h, evs)) && After(h, evs).lock == h.lock
    decreases |evs|
  {
    if evs != [] {
      HubStuckStep(h, evs[0]);
      StepKeeps(h, evs[0]);
      HubStuckAlong(Next(h, evs[0]), evs[1..]);
    }
  }

  /** Then nobody's Execute begins and no connection of any node attaches or detaches any more. */
  lemma NothingBeginsAnyMore(h: Hub, evs: seq<Event>, ev: Event)
    requires Inv(h) && HubStuck(h) && Legal(h, evs) && (ev.Start? || ev.AttachBegin? || ev.DetachEnd?)
    ensures !Enabled(After(h, evs), ev)
  {
    HubStuckAlong(h, evs);
    NeedsTheLock(After(h, evs), ev);
  }

  lemma NeedsTheLock(h: Hub, ev: Event)
    requires h.lock.LockedBy? && (ev.Start? || ev.AttachBegin? || ev.DetachEnd?)
    ensures !Enabled(h, ev)
  {
  }

  // ----- otherwise the lock can be released -------------------------------------------------------

  /** Only this connection has changed, by losing those of its executions that were on their way out. */
  predicate Emptied(h: Hub, h': Hub, c: ConnId) {
    LockFree(h, c) && LockFree(h', c) && LetGo(h, h', c) &&
    h'.conns[c].closed == h.conns[c].closed && h'.conns[c].serving == h.conns[c].serving &&
    h'.conns[c].node == h.conns[c].node
  }

  function Leavers(h: Hub, c: ConnId): set<OpId>
    requires c in h.conns
  {
    set op | op in h.conns[c].pending && op in h.execs && h.execs[op].phase.Leaving?
  }

  /** While the lock is free, all executions on their way out can leave. */
  lemma Empties(h: Hub, c: ConnId) returns (evs: seq<Event>)
    requires Inv(h) && LockFree(h, c)
    ensures Legal(h, evs) && Emptied(h, After(h, evs), c) && Leavers(After(h, evs), c) == {}
    decreases |Leavers(h, c)|
  {
    if Leavers(h, c) == {} {
      evs := [];
    } else {
      var op :| op in Leavers(h, c);
      assert ConnOk(h, c);
      LeavesOne(h, c, op);
      StepKeeps(h, Untrack(op));
      var rest := Empties(Next(h, Untrack(op)), c);
      OneFirst(h, Untrack(op), rest);
      evs := [Untrack(op)] + rest;
      EmptiedLater(h, Next(h, Untrack(op)), After(h, evs), c);
    }
  }

  lemma LeavesOne(h: Hub, c: ConnId, op: OpId)
    requires LockFree(h, c) && op in Leavers(h, c) && h.execs[op].conn == c
    ensures Enabled(h, Untrack(op)) && Emptied(h, Next(h, Untrack(op)), c)
    ensures |Leavers(Next(h, Untrack(op)), c)| < |Leavers(h, c)|
  {
    assert Leavers(Next(h, Untrack(op)), c) == Leavers(h, c) - {op};
  }

  lemma EmptiedLater(h: Hub, h1: Hub, h2: Hub, c: ConnId)
    requires Emptied(h, h1, c) && Emptied(h1, h2, c)
    ensures Emptied(h, h2, c)
  {
  }

  /** Nothing has moved but the old connection, its executions and the state of the one that attaches. */
  predicate Near(h: Hub, h': Hub, c: ConnId, w: ConnId) {
    c in h.conns && w in h.conns && c != w && h'.registry == h.registry && h'.lock == h.lock &&
    h'.conns.Keys == h.conns.Keys && h'.execs.Keys == h.execs.Keys &&
    (forall q | q in h.execs :: h'.execs[q].conn == h.execs[q].conn) &&
    (forall q | q in h.execs && h.execs[q].conn != c :: h'.execs[q] == h.execs[q]) &&
    (forall d | d in h.conns && d != c && d != w :: h'.conns[d] == h.conns[d]) &&
    h'.conns[w] == h.conns[w].(serving := h'.conns[w].serving)
  }

  lemma NearAndOn(h: Hub, h1: Hub, h2: Hub, c: ConnId, w: ConnId)
    requires Near(h, h1, c, w) && Near(h1, h2, c, w)
    ensures Near(h, h2, c, w)
  {
  }

  lemma LetGoIsNear(h: Hub, h': Hub, c: ConnId, w: ConnId)
    requires LetGo(h, h', c) && w in h.conns && w != c
    requires h.conns[c].holder.Closer? ==> h.conns[c].holder.who in {c, w}
    ensures Near(h, h', c, w)
    ensures h'.conns[w].serving ==
            if h.conns[c].holder == Closer(w, HeldFor(h, c)) then Closed(h.conns[w].serving) else h.conns[w].serving
  {
  }

  function HeldFor(h: Hub, c: ConnId): set<OpId>
    requires c in h.conns
  {
    if h.conns[c].holder.Closer? then h.conns[c].holder.remaining else {}
  }

  lemma CloserIsNear(h: Hub, c: ConnId, w: ConnId)
    requires LocksOk(h) && h.lock == LockedBy(w) && c in h.conns && h.conns[c].holder.Closer?
    ensures h.conns[c].holder.who in {c, w}
  {
    OneAttaches(h, w);
    assert ConnOk(h, c);
  }

  /** The connection that attaches is at the point of closing its predecessor, whose lock is free. */
  predicate MayClose(h: Hub, c: ConnId, w: ConnId) {
    h.lock == LockedBy(w) && w in h.conns && Waits(h, w) && c == Predecessor(h, w) && LockFree(h, c)
  }

  lemma WaitsForOther(h: Hub, w: ConnId)
    requires w in h.conns && Superseded(h, w)
    ensures Predecessor(h, w) != w
  {
  }

  /** With nobody on the way out, closing cannot get stuck. */
  lemma ClosesEmpty(h: Hub, c: ConnId, w: ConnId) returns (evs: seq<Event>)
    requires Inv(h) && MayClose(h, c, w) && Leavers(h, c) == {}
    ensures Legal(h, evs) && Near(h, After(h, evs), c, w) && After(h, evs).conns[w].serving == Attaching(true)
  {
    var h1 := Next(h, CloseBegin(w, c));
    StepKeeps(h, CloseBegin(w, c));
    JustOne(h, CloseBegin(w, c));
    CloseStarts(h, c, w);
    if h.conns[c].closed {
      evs := [CloseBegin(w, c)];
    } else {
      var rest := Unblocks(h1, c);
      OneFirst(h, CloseBegin(w, c), rest);
      evs := [CloseBegin(w, c)] + rest;
      LetGoIsNear(h1, After(h1, rest), c, w);
      NearAndOn(h, h1, After(h1, rest), c, w);
    }
  }

  lemma CloseStarts(h: Hub, c: ConnId, w: ConnId)
    requires LocksOk(h) && MayClose(h, c, w) && Leavers(h, c) == {}
    ensures var h1 := Next(h, CloseBegin(w, c));
            Near(h, h1, c, w) &&
            if h.conns[c].closed then h1.conns[w].serving == Attaching(true)
            else h1.conns[w].serving == Attaching(false) && h1.conns[c].holder == Closer(w, h.conns[c].pending) &&
                 forall q :: !Stuck(h1, c, q)
  {
    assert ConnOk(h, c);
    var h1 := Next(h, CloseBegin(w, c));
    forall q
      ensures !h.conns[c].closed ==> !Stuck(h1, c, q)
    {
      assert q !in Leavers(h, c);
    }
  }

  /** A predecessor that is not stuck can be closed: free its lock, let the leavers leave, close. */
  lemma ClosesOld(h: Hub, c: ConnId, w: ConnId) returns (evs: seq<Event>)
    requires Inv(h) && h.lock == LockedBy(w) && w in h.conns && Waits(h, w) && c == Predecessor(h, w)
    requires forall q :: !Stuck(h, c, q)
    ensures Legal(h, evs) && Near(h, After(h, evs), c, w) && After(h, evs).conns[w].serving == Attaching(true)
  {
    WaitsForOther(h, w);
    evs := Unblocks(h, c);
    var h1 := After(h, evs);
    AfterKeeps(h, evs);
    if h.conns[c].holder.Closer? {
      CloserIsNear(h, c, w);
    }
    LetGoIsNear(h, h1, c, w);
    if h1.conns[w].serving != Attaching(true) {
      var rest := ClosesFree(h1, c, w);
      Continued(h, evs, rest);
      NearAndOn(h, h1, After(h1, rest), c, w);
      evs := evs + rest;
    }
  }

  lemma ClosesFree(h: Hub, c: ConnId, w: ConnId) returns (evs: seq<Event>)
    requires Inv(h) && MayClose(h, c, w)
    ensures Legal(h, evs) && Near(h, After(h, evs), c, w) && After(h, evs).conns[w].serving == Attaching(true)
  {
    WaitsForOther(h, w);
    evs := Empties(h, c);
    var h1 := After(h, evs);
    AfterKeeps(h, evs);
    LetGoIsNear(h, h1, c, w);
    var rest := ClosesEmpty(h1, c, w);
    Continued(h, evs, rest);
    NearAndOn(h, h1, After(h1, rest), c, w);
    evs := evs + rest;
  }

  // ----- and who is served then --------------------------------------------------------------------

  /** A connection and its executions are as they were. */
  predicate Quiet(h: Hub, h': Hub, d: ConnId) {
    d in h.conns && d in h'.conns && h'.conns[d] == h.conns[d] && h'.execs.Keys == h.execs.Keys &&
    (forall q | q in h.execs :: h'.execs[q].conn == h.execs[q].conn) &&
    forall q | q in h.execs && h.execs[q].conn == d :: h'.execs[q] == h.execs[q]
  }

  /** The connection has attached, and those of the other nodes have not been touched. */
  predicate HasAttached(h: Hub, h': Hub, w: ConnId) {
    w in h.conns && h'.lock.Unlocked? && h'.registry == Attached(h.registry, h.conns[w].node, w) &&
    w in h'.conns && h'.conns[w].serving.Open? &&
    forall n | n in h.registry && n != h.conns[w].node :: Quiet(h, h', h.registry[n])
  }

  lemma Attaches(h: Hub, w: ConnId) returns (evs: seq<Event>)
    requires Inv(h) && h.lock == LockedBy(w) && !HubStuck(h)
    ensures Legal(h, evs) && HasAttached(h, After(h, evs), w)
  {
    assert ConnOk(h, w);
    if Waits(h, w) {
      var c := Predecessor(h, w);
      WaitsForOther(h, w);
      var first := ClosesOld(h, c, w);
      var h1 := After(h, first);
      JustOne(h1, AttachEnd(w));
      Continued(h, first, [AttachEnd(w)]);
      evs := first + [AttachEnd(w)];
      OthersQuiet(h, h1, c, w);
    } else {
      evs := [AttachEnd(w)];
      JustOne(h, AttachEnd(w));
      NobodyElse(h, w);
    }
  }

  lemma OthersQuiet(h: Hub, h1: Hub, c: ConnId, w: ConnId)
    requires LocksOk(h) && Near(h, h1, c, w) && Superseded(h, w) && c == Predecessor(h, w)
    requires h.lock == LockedBy(w) && h1.conns[w].serving == Attaching(true)
    ensures Enabled(h1, AttachEnd(w)) && HasAttached(h, Next(h1, AttachEnd(w)), w)
  {
    var h' := Next(h1, AttachEnd(w));
    assert ConnOk(h, w);
    forall n | n in h.registry && n != h.conns[w].node
      ensures Quiet(h, h', h.registry[n])
    {
      assert h.conns[h.registry[n]].node == n;
    }
  }

  lemma NobodyElse(h: Hub, w: ConnId)
    requires LocksOk(h) && h.lock == LockedBy(w) && Enabled(h, AttachEnd(w))
    ensures HasAttached(h, Next(h, AttachEnd(w)), w)
  {
    assert ConnOk(h, w);
  }

  /** The hub's lock can be released in some continuation if and only if the hub is not stuck. */
  lemma HubUnlockedExactly(h: Hub)
    requires Inv(h)
    ensures (exists evs :: Unlocks(h, evs)) <==> !HubStuck(h)
  {
    if HubStuck(h) {
      forall evs | Legal(h, evs)
        ensures !Unlocks(h, evs)
      {
        HubStuckAlong(h, evs);
      }
    } else if h.lock.Unlocked? {
      assert Unlocks(h, []);
    } else {
      var evs := Attaches(h, h.lock.conn);
      assert Unlocks(h, evs);
    }
  }

  // ----- a call of Execute that has not found its connection yet -------------------------------

  /**
   Execute first waits for the hub's lock to look up the node's connection. It fails when
   there is none; otherwise `op` is its execution, which has to return.
   */
  predicate Answered(h: Hub, evs: seq<Event>, n: NodeId, op: OpId) {
    Legal(h, evs) &&
    ((After(h, evs).lock.Unlocked? && n !in After(h, evs).registry) || (Start(op, n) in evs && HubBlocking.Returned(After(h, evs), op)))
  }

  ghost predicate CanBeAnswered(h: Hub, n: NodeId) {
    exists evs, op :: op !in h.execs && Answered(h, evs, n, op)
  }

  /** The node's connection is stuck, and no other is about to take its place. */
  ghost predicate HeldBack(h: Hub, n: NodeId) {
    n in h.registry && (exists q :: Stuck(h, h.registry[n], q)) &&
    !(h.lock.LockedBy? && h.lock.conn in h.conns && h.conns[h.lock.conn].node == n)
  }

  ghost predicate Hopeless(h: Hub, n: NodeId) {
    HubStuck(h) || HeldBack(h, n)
  }

  lemma HeldBackStep(h: Hub, ev: Event, n: NodeId)
    requires Inv(h) && HeldBack(h, n) && Enabled(h, ev)
    ensures Hopeless(Next(h, ev), n)
  {
    var c := h.registry[n];
    var q :| Stuck(h, c, q);
    StuckStep(h, ev, c, q);
    if ev.AttachBegin? {
      BeginsToAttach(h, ev, n, q);
    } else {
      StaysRegistered(h, ev, n, q);
    }
  }

  lemma BeginsToAttach(h: Hub, ev: Event, n: NodeId, q: OpId)
    requires LocksOk(h) && HeldBack(h, n) && ev.AttachBegin? && Enabled(h, ev) && Stuck(Next(h, ev), h.registry[n], q)
    ensures Hopeless(Next(h, ev), n)
  {
    var h' := Next(h, ev);
    assert h'.lock == LockedBy(ev.c) && h'.registry == h.registry;
    if h.conns[ev.c].node == n {
      assert Waits(h', ev.c) && Predecessor(h', ev.c) == h.registry[n];
    }
  }

  lemma StaysRegistered(h: Hub, ev: Event, n: NodeId, q: OpId)
    requires LocksOk(h) && HeldBack(h, n) && Enabled(h, ev) && !ev.AttachBegin?
    requires Stuck(h, h.registry[n], q) && Stuck(Next(h, ev), h.registry[n], q)
    ensures HeldBack(Next(h, ev), n)
  {
    if ev.DetachEnd? {
      DetachesOther(h, n, q, ev.c);
    } else if ev.AttachEnd? {
      assert ConnOk(h, ev.c);
    } else {
      RegistryAndLock(h, ev);
    }
  }

  lemma DetachesOther(h: Hub, n: NodeId, q: OpId, d: ConnId)
    requires LocksOk(h) && HeldBack(h, n) && Stuck(h, h.registry[n], q) && d in h.conns && h.conns[d].serving.Detaching?
    ensures d != h.registry[n]
  {
    assert ConnOk(h, h.registry[n]);
    if h.conns[h.registry[n]].holder.Closer? {
      var who := h.conns[h.registry[n]].holder.who;
      assert who in h.conns && ConnOk(h, who);
    }
  }

  lemma RegistryAndLock(h: Hub, ev: Event)
    requires Enabled(h, ev) && !ev.AttachBegin? && !ev.AttachEnd? && !ev.DetachEnd?
    ensures Next(h, ev).registry == h.registry && Next(h, ev).lock == h.lock
    ensures forall d | d in h.conns :: d in Next(h, ev).conns && Next(h, ev).conns[d].node == h.conns[d].node
  {
  }

  lemma {:induction false} HopelessAlong(h: Hub, evs: seq<Event>, n: NodeId)
    requires Inv(h) && Hopeless(h, n) && Legal(h, evs)
    ensures Hopeless(After(h, evs), n)
    decreases |evs|
  {
    if evs != [] {
      HopelessStep(h, evs[0], n);
      StepKeeps(h, evs[0]);
      HopelessAlong(Next(h, evs[0]), evs[1..], n);
    }
  }

  lemma HopelessStep(h: Hub, ev: Event, n: NodeId)
    requires Inv(h) && Hopeless(h, n) && Enabled(h, ev)
    ensures Hopeless(Next(h, ev), n)
  {
    if HubStuck(h) {
      HubStuckStep(h, ev);
    } else {
      HeldBackStep(h, ev, n);
    }
  }

  lemma {:induction false} StartedOnce(h: Hub, evs: seq<Event>, op: OpId, n: NodeId)
    requires Legal(h, evs) && op in h.execs
    ensures Start(op, n) !in evs
    decreases |evs|
  {
    if evs != [] {
      SameConn(h, evs[0], op);
      StartedOnce(Next(h, evs[0]), evs[1..], op, n);
    }
  }

  /** An execution that starts on a stuck connection does not return. */
  lemma {:induction false} NeverReturns(h: Hub, evs: seq<Event>, n: NodeId, op: OpId)
    requires Inv(h) && Hopeless(h, n) && Legal(h, evs) && op !in h.execs && Start(op, n) in evs
    ensures !HubBlocking.Returned(After(h, evs), op)
    decreases |evs|
  {
    var ev, h1 := evs[0], Next(h, evs[0]);
    HopelessStep(h, ev, n);
    StepKeeps(h, ev);
    if ev == Start(op, n) {
      var c := h.registry[n];
      var q :| Stuck(h, c, q);
      StuckStep(h, ev, c, q);
      StuckAlong(h1, evs[1..], c, q, op);
    } else {
      assert Start(op, n) in evs[1..];
      if op in h1.execs {
        StartedOnce(h1, evs[1..], op, n);
      } else {
        NeverReturns(h1, evs[1..], n, op);
      }
    }
  }

  lemma HopelessIsNever(h: Hub, n: NodeId)
    requires Inv(h) && Hopeless(h, n)
    ensures !CanBeAnswered(h, n)
  {
    forall evs, op | op !in h.execs && Legal(h, evs)
      ensures !Answered(h, evs, n, op)
    {
      HopelessAlong(h, evs, n);
      if Start(op, n) in evs {
        NeverReturns(h, evs, n, op);
      }
    }
  }

  lemma {:induction false} FreshOp(used: set<OpId>) returns (op: OpId)
    ensures op !in used && forall x | x in used :: x < op
  {
    if used == {} {
      op := 0;
    } else {
      var x :| x in used;
      var rest := used - {x};
      var m := FreshOp(rest);
      op := if x < m then m else x + 1;
      assert forall y | y in used :: y == x || y in rest;
    }
  }

  /** Once the lock is free and the node's connection not stuck, a call goes through. */
  lemma GoesThrough(h: Hub, n: NodeId, op: OpId) returns (evs: seq<Event>)
    requires Inv(h) && h.lock.Unlocked? && n in h.registry && op !in h.execs
    requires forall q :: !Stuck(h, h.registry[n], q)
    ensures Answered(h, evs, n, op)
  {
    var h1 := Next(h, Start(op, n));
    StepKeeps(h, Start(op, n));
    StartSticksNobody(h, op, n);
    var rest := RunsToItsEnd(h1, h.registry[n], op);
    OneFirst(h, Start(op, n), rest);
    evs := [Start(op, n)] + rest;
  }

  lemma StartSticksNobody(h: Hub, op: OpId, n: NodeId)
    requires Enabled(h, Start(op, n)) && forall q :: !Stuck(h, h.registry[n], q)
    ensures forall q :: !Stuck(Next(h, Start(op, n)), h.registry[n], q)
  {
    forall q
      ensures !Stuck(Next(h, Start(op, n)), h.registry[n], q)
    {
      assert !Stuck(h, h.registry[n], q);
    }
  }

  lemma {:induction false} OpsStay(h: Hub, evs: seq<Event>)
    requires Legal(h, evs)
    ensures h.execs.Keys <= After(h, evs).execs.Keys
    decreases |evs|
  {
    if evs != [] {
      forall op | op in h.execs
        ensures op in Next(h, evs[0]).execs
      {
        SameConn(h, evs[0], op);
      }
      OpsStay(Next(h, evs[0]), evs[1..]);
    }
  }

  /** The lock is released, and the node's connection, if there is one, is not stuck. */
  lemma OpensUp(h: Hub, n: NodeId) returns (evs: seq<Event>)
    requires Inv(h) && !Hopeless(h, n)
    ensures Unlocks(h, evs)
    ensures n in After(h, evs).registry ==> forall q :: !Stuck(After(h, evs), After(h, evs).registry[n], q)
  {
    if h.lock.Unlocked? {
      evs := [];
    } else {
      evs := Attaches(h, h.lock.conn);
      AfterKeeps(h, evs);
      if n in After(h, evs).registry {
        NotStuckAfter(h, After(h, evs), h.lock.conn, n);
      }
    }
  }

  lemma NotStuckAfter(h: Hub, h': Hub, w: ConnId, n: NodeId)
    requires Inv(h) && Inv(h') && !Hopeless(h, n) && h.lock == LockedBy(w) && HasAttached(h, h', w) && n in h'.registry
    ensures forall q :: !Stuck(h', h'.registry[n], q)
  {
    if n == h.conns[w].node {
      OpenIsNotStuck(h', w);
    } else {
      forall q
        ensures !Stuck(h', h'.registry[n], q)
      {
        assert Quiet(h, h', h.registry[n]) && !Stuck(h, h.registry[n], q);
      }
    }
  }

  /** While nobody attaches, a connection that is being served normally is not being closed. */
  lemma OpenIsNotStuck(h: Hub, w: ConnId)
    requires LocksOk(h) && h.lock.Unlocked? && w in h.conns && h.conns[w].serving.Open?
    ensures forall q :: !Stuck(h, w, q)
  {
    NobodyAttaches(h);
    assert ConnOk(h, w);
  }

  lemma NobodyAttaches(h: Hub)
    requires LocksOk(h) && h.lock.Unlocked?
    ensures forall d | d in h.conns :: !h.conns[d].serving.Attaching?
  {
    forall d | d in h.conns
      ensures !h.conns[d].serving.Attaching?
    {
      assert ConnOk(h, d);
    }
  }

  /**
   A call of Execute that still waits for the hub's lock can be answered in some
   continuation if and only if the hub is not stuck and the node's connection is not
   stuck either, unless a new one is just taking its place.
   */
  lemma AnsweredExactly(h: Hub, n: NodeId)
    requires Inv(h)
    ensures CanBeAnswered(h, n) <==> !Hopeless(h, n)
  {
    if Hopeless(h, n) {
      HopelessIsNever(h, n);
    } else {
      var evs := OpensUp(h, n);
      var h1 := After(h, evs);
      AfterKeeps(h, evs);
      OpsStay(h, evs);
      var op := FreshOp(h1.execs.Keys);
      if n !in h1.registry {
        assert Answered(h, evs, n, op);
      } else {
        var rest := GoesThrough(h1, n, op);
        Continued(h, evs, rest);
        assert Answered(h, evs + rest, n, op);
      }
    }
  }

  // ----- it does happen ----------------------------------------------------------------------------

  /** A reply that arrives as the deadline expires, and an agent that connects again: every node waits for ever. */
  lemma LateReplyThenReconnect()
    ensures exists h :: Reachable(h) && HubStuck(h)
  {
    IsAnswered(ExecuteResult(1, 5));
    var h0 := OneConn(Conn(7, Open, {1}, false, Free, [ExecuteResult(1, 5)]), map[1 := Exec(0, Waiting, [], [Answer(5)], 0, 0, 1)]);
    ReachableNext(h0, Expire(1));
    var h1 := Next(h0, Expire(1));
    ReachableNext(h1, Connect(1, 7));
    var h2 := Next(h1, Connect(1, 7));
    ReachableNext(h2, AttachBegin(1));
    var h3 := Next(h2, AttachBegin(1));
    ReachableNext(h3, CloseBegin(1, 0));
    AttachStands(h3);
  }

  /** Closing the connection before it, whose only operation is leaving with a full slot. */
  lemma AttachStands(h: Hub)
    requires 0 in h.conns && 1 in h.conns && h.lock == LockedBy(1) && h.conns[1].serving == Attaching(false)
    requires Superseded(h, 1) && Predecessor(h, 1) == 0 && h.conns[0].holder.Free? && !h.conns[0].closed && h.conns[0].pending == {1}
    requires 1 in h.execs && h.execs[1].conn == 0 && h.execs[1].phase.Leaving? && SlotFull(h.execs[1])
    ensures HubStuck(Next(h, CloseBegin(1, 0)))
  {
    var h' := Next(h, CloseBegin(1, 0));
    assert Stuck(h', 0, 1) && Waits(h', 1) && Predecessor(h', 1) == 0;
  }
}
