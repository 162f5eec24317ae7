/**
 The control plane's end of the agents' connections as a machine of small steps. Each
 step is one thing a goroutine does between two points where it can be held up: taking a
 lock, running a callback, putting a value into a one-slot channel, waiting for a reply.
 Any number of connections and executions interleave freely.
 */
module HubProtocols {
  type NodeId = int
  type ConnId = nat
  type OpId = nat

  /** What lands in the one-slot channel of an execution. */
  datatype Reply = Answer(value: int) | ConnectionLost

  datatype Outcome = Undelivered | Replied(reply: Reply) | TimedOut

  /** Where an execution is: connection looked up, tracked, message sent, on its way out, done. */
  datatype Phase = Found | Tracked | Waiting | Leaving(outcome: Outcome) | Returned(outcome: Outcome)

  /**
   One call of Execute. `stages` are the finished stage callbacks, `puts` all values ever
   put into its channel, of which it took the first `taken`. The messages of its
   connection from number `since` up to `until` were processed while it was tracked.
   */
  datatype Exec = Exec(conn: ConnId, phase: Phase, stages: seq<int>, puts: seq<Reply>, taken: nat,
                       since: nat, until: nat)

  /** Upward messages of an agent */
  datatype Message = StageUpdate(op: OpId, stage: int) | ExecuteResult(op: OpId, value: int)

  /** The goroutine that serves a connection: attach, receive messages one by one, detach. */
  datatype Serving =
    | Created
    | Attaching(closedOld: bool)
    | Open
    | Received(message: Message)
    | Delivering(message: Message)
    | Departing
    | Detaching
    | Gone

  /** Who holds a connection's lock */
  datatype Holder = Free | Receiver | Closer(who: ConnId, remaining: set<OpId>)

  datatype Conn = Conn(node: NodeId, serving: Serving, pending: set<OpId>, closed: bool, holder: Holder,
                       processed: seq<Message>)

  datatype HubLock = Unlocked | LockedBy(conn: ConnId)

  datatype Hub = Hub(registry: map<NodeId, ConnId>, lock: HubLock, conns: map<ConnId, Conn>, execs: map<OpId, Exec>)

  datatype Event =
    | Connect(c: ConnId, node: NodeId)
    | AttachBegin(c: ConnId)
    | AttachEnd(c: ConnId)
    | CloseBegin(who: ConnId, c: ConnId)
    | ClosePut(c: ConnId, op: OpId)
    | CloseEnd(c: ConnId)
    | Receive(c: ConnId, message: Message)
    | DeliverBegin(c: ConnId)
    | DeliverEnd(c: ConnId)
    | Disconnect(c: ConnId)
    | DetachEnd(c: ConnId)
    | Start(op: OpId, node: NodeId)
    | Track(op: OpId)
    | Send(op: OpId, sent: bool)
    | TakeReply(op: OpId)
    | Expire(op: OpId)
    | Untrack(op: OpId)

  // ----- shared with the registry's methods ------------------------------------------------

  function Attached<T>(registry: map<NodeId, T>, node: NodeId, c: T): map<NodeId, T> {
    registry[node := c]
  }

  /** Only the connection that is registered is removed. */
  function Detached<T(==)>(registry: map<NodeId, T>, node: NodeId, c: T): map<NodeId, T> {
    if node in registry && registry[node] == c then registry - {node} else registry
  }

  // ----- steps ---------------------------------------------------------------------------------

  predicate Superseded(h: Hub, c: ConnId)
    requires c in h.conns
  {
    h.conns[c].node in h.registry && h.registry[h.conns[c].node] != c
  }

  /** `who` is at the point where it calls closeAll on `c`. */
  predicate Closes(h: Hub, who: ConnId, c: ConnId) {
    who in h.conns && c in h.conns &&
    if who == c then h.conns[c].serving.Departing?
    else h.conns[who].serving == Attaching(false) && Superseded(h, who) && h.registry[h.conns[who].node] == c
  }

  function Closed(s: Serving): Serving {
    if s.Attaching? then Attaching(true) else Detaching
  }

  predicate SlotFull(e: Exec) {
    e.taken < |e.puts|
  }

  predicate Enabled(h: Hub, ev: Event) {
    match ev
    case Connect(c, _) => c !in h.conns
    case AttachBegin(c) => c in h.conns && h.conns[c].serving.Created? && h.lock.Unlocked?
    case AttachEnd(c) =>
      c in h.conns && h.conns[c].serving.Attaching? && (h.conns[c].serving.closedOld || !Superseded(h, c))
    case CloseBegin(who, c) => Closes(h, who, c) && h.conns[c].holder.Free?
    case ClosePut(c, op) =>
      c in h.conns && h.conns[c].holder.Closer? && op in h.conns[c].holder.remaining &&
      op in h.execs && !SlotFull(h.execs[op])
    case CloseEnd(c) =>
      c in h.conns && h.conns[c].holder.Closer? && h.conns[c].holder.remaining == {} &&
      h.conns[c].holder.who in h.conns
    case Receive(c, _) => c in h.conns && h.conns[c].serving.Open?
    case DeliverBegin(c) => c in h.conns && h.conns[c].serving.Received? && h.conns[c].holder.Free?
    case DeliverEnd(c) =>
      c in h.conns && h.conns[c].serving.Delivering? && h.conns[c].serving.message.op in h.execs &&
      (h.conns[c].serving.message.ExecuteResult? ==> !SlotFull(h.execs[h.conns[c].serving.message.op]))
    case Disconnect(c) => c in h.conns && h.conns[c].serving.Open?
    case DetachEnd(c) => c in h.conns && h.conns[c].serving.Detaching? && h.lock.Unlocked?
    case Start(op, node) => op !in h.execs && h.lock.Unlocked? && node in h.registry
    case Track(op) =>
      op in h.execs && h.execs[op].phase.Found? && h.execs[op].conn in h.conns && h.conns[h.execs[op].conn].holder.Free?
    case Send(op, _) => op in h.execs && h.execs[op].phase.Tracked?
    case TakeReply(op) => op in h.execs && h.execs[op].phase.Waiting? && SlotFull(h.execs[op])
    case Expire(op) => op in h.execs && h.execs[op].phase.Waiting?
    case Untrack(op) =>
      op in h.execs && h.execs[op].phase.Leaving? && h.execs[op].conn in h.conns && h.conns[h.execs[op].conn].holder.Free?
  }

  function WithConn(h: Hub, c: ConnId, conn: Conn): Hub {
    h.(conns := h.conns[c := conn])
  }

  function WithExec(h: Hub, op: OpId, e: Exec): Hub {
    h.(execs := h.execs[op := e])
  }

  /** A delivered message reaches the execution it names. */
  function Deliver(e: Exec, m: Message): Exec {
    if m.StageUpdate? then e.(stages := e.stages + [m.stage]) else e.(puts := e.puts + [Answer(m.value)])
  }

  /** Every tracked execution of the connection has seen one more message go by. */
  function SeenBy(execs: map<OpId, Exec>, pending: set<OpId>, count: nat): map<OpId, Exec> {
    map op | op in execs :: if op in pending then execs[op].(until := count) else execs[op]
  }

  /** closeAll on a connection that is closed already does nothing. */
  function CloseBegun(h: Hub, who: ConnId, c: ConnId): Hub
    requires Enabled(h, CloseBegin(who, c))
  {
    if h.conns[c].closed then WithConn(h, who, h.conns[who].(serving := Closed(h.conns[who].serving)))
    else WithConn(h, c, h.conns[c].(closed := true, holder := Closer(who, h.conns[c].pending)))
  }

  function LossPut(h: Hub, c: ConnId, op: OpId): Hub
    requires Enabled(h, ClosePut(c, op))
  {
    var held := h.conns[c].holder;
    WithExec(WithConn(h, c, h.conns[c].(holder := held.(remaining := held.remaining - {op}))),
             op, h.execs[op].(puts := h.execs[op].puts + [ConnectionLost]))
  }

  function CloseEnded(h: Hub, c: ConnId): Hub
    requires Enabled(h, CloseEnd(c))
  {
    var who := h.conns[c].holder.who;
    var released := WithConn(h, c, h.conns[c].(pending := {}, holder := Free));
    WithConn(released, who, released.conns[who].(serving := Closed(released.conns[who].serving)))
  }

  /** A message for an operation that is not tracked is dropped. */
  function DeliverBegun(h: Hub, c: ConnId): Hub
    requires Enabled(h, DeliverBegin(c))
  {
    var conn := h.conns[c];
    var m := conn.serving.message;
    if m.op in conn.pending then WithConn(h, c, conn.(serving := Delivering(m), holder := Receiver))
    else
      WithConn(h, c, conn.(serving := Open, processed := conn.processed + [m]))
      .(execs := SeenBy(h.execs, conn.pending, |conn.processed| + 1))
  }

  function Delivered(h: Hub, c: ConnId): Hub
    requires Enabled(h, DeliverEnd(c))
  {
    var conn := h.conns[c];
    var m := conn.serving.message;
    WithConn(h, c, conn.(serving := Open, holder := Free, processed := conn.processed + [m]))
    .(execs := SeenBy(h.execs[m.op := Deliver(h.execs[m.op], m)], conn.pending, |conn.processed| + 1))
  }

  function WithTracked(h: Hub, op: OpId): Hub
    requires Enabled(h, Track(op))
  {
    var e := h.execs[op];
    var conn := h.conns[e.conn];
    WithExec(WithConn(h, e.conn, conn.(pending := conn.pending + {op})),
             op, e.(phase := Tracked, since := |conn.processed|, until := |conn.processed|))
  }

  function WithUntracked(h: Hub, op: OpId): Hub
    requires Enabled(h, Untrack(op))
  {
    var e := h.execs[op];
    var conn := h.conns[e.conn];
    WithExec(WithConn(h, e.conn, conn.(pending := conn.pending - {op})), op, e.(phase := Returned(e.phase.outcome)))
  }

  function Next(h: Hub, ev: Event): Hub
    requires Enabled(h, ev)
  {
    match ev
    case Connect(c, node) => WithConn(h, c, Conn(node, Created, {}, false, Free, []))
    case AttachBegin(c) => WithConn(h, c, h.conns[c].(serving := Attaching(false))).(lock := LockedBy(c))
    case AttachEnd(c) =>
      WithConn(h, c, h.conns[c].(serving := Open)).(registry := Attached(h.registry, h.conns[c].node, c), lock := Unlocked)
    case CloseBegin(who, c) => CloseBegun(h, who, c)
    case ClosePut(c, op) => LossPut(h, c, op)
    case CloseEnd(c) => CloseEnded(h, c)
    case Receive(c, m) => WithConn(h, c, h.conns[c].(serving := Received(m)))
    case DeliverBegin(c) => DeliverBegun(h, c)
    case DeliverEnd(c) => Delivered(h, c)
    case Disconnect(c) => WithConn(h, c, h.conns[c].(serving := Departing))
    case DetachEnd(c) =>
      WithConn(h, c, h.conns[c].(serving := Gone)).(registry := Detached(h.registry, h.conns[c].node, c))
    case Start(op, node) => WithExec(h, op, Exec(h.registry[node], Found, [], [], 0, 0, 0))
    case Track(op) => WithTracked(h, op)
    case Send(op, sent) => WithExec(h, op, h.execs[op].(phase := if sent then Waiting else Leaving(Undelivered)))
    case TakeReply(op) =>
      WithExec(h, op, h.execs[op].(phase := Leaving(Replied(h.execs[op].puts[h.execs[op].taken])), taken := h.execs[op].taken + 1))
    case Expire(op) => WithExec(h, op, h.execs[op].(phase := Leaving(TimedOut)))
    case Untrack(op) => WithUntracked(h, op)
  }

  const Idle := Hub(map[], Unlocked, map[], map[])

  predicate StepAt(hs: seq<Hub>, evs: seq<Event>, i: nat)
    requires |hs| == |evs| + 1 && i < |evs|
  {
    Enabled(hs[i], evs[i]) && hs[i + 1] == Next(hs[i], evs[i])
  }

  predicate Run(hs: seq<Hub>, evs: seq<Event>) {
    |hs| == |evs| + 1 && hs[0] == Idle && forall i | 0 <= i < |evs| :: StepAt(hs, evs, i)
  }

  // ----- locks and bookkeeping -------------------------------------------------------------

  predicate ConnOk(h: Hub, c: ConnId)
    requires c in h.conns
  {
    var conn := h.conns[c];
    (forall op | op in conn.pending ::
      op in h.execs && h.execs[op].conn == c && !h.execs[op].phase.Found? && !h.execs[op].phase.Returned?) &&
    (conn.serving.Delivering? <==> conn.holder.Receiver?) &&
    (conn.serving.Delivering? ==> conn.serving.message.op in conn.pending) &&
    (conn.serving.Attaching? <==> h.lock == LockedBy(c)) &&
    (conn.holder.Closer? ==>
      conn.closed && conn.holder.remaining <= conn.pending && Closes(h, conn.holder.who, c))
  }

  predicate RegistryOk(h: Hub) {
    forall n | n in h.registry :: h.registry[n] in h.conns && h.conns[h.registry[n]].node == n &&
      !h.conns[h.registry[n]].serving.Created? && !h.conns[h.registry[n]].serving.Attaching? &&
      !h.conns[h.registry[n]].serving.Gone?
  }

  predicate LocksOk(h: Hub) {
    (forall c | c in h.conns :: ConnOk(h, c)) && RegistryOk(h) &&
    (forall op | op in h.execs :: h.execs[op].conn in h.conns) &&
    (h.lock.LockedBy? ==> h.lock.conn in h.conns)
  }

  predicate Calls(ev: Event) {
    ev.Start? || ev.Track? || ev.Send? || ev.TakeReply? || ev.Expire? || ev.Untrack?
  }

  predicate Serves(ev: Event) {
    ev.Connect? || ev.AttachBegin? || ev.AttachEnd? || ev.Receive? || ev.Disconnect? || ev.DetachEnd?
  }

  lemma ReceiveKeepsConn(h: Hub, ev: Event, d: ConnId)
    requires LocksOk(h) && (ev.Connect? || ev.Receive? || ev.Disconnect?) && Enabled(h, ev) && d in Next(h, ev).conns
    ensures ConnOk(Next(h, ev), d)
  {
  }

  lemma AttachBeginKeepsConn(h: Hub, ev: Event, d: ConnId)
    requires LocksOk(h) && ev.AttachBegin? && Enabled(h, ev) && d in Next(h, ev).conns
    ensures ConnOk(Next(h, ev), d)
  {
    assert ConnOk(h, d) && ConnOk(h, ev.c);
  }

  lemma AttachEndKeepsConn(h: Hub, ev: Event, d: ConnId)
    requires LocksOk(h) && ev.AttachEnd? && Enabled(h, ev) && d in Next(h, ev).conns
    ensures ConnOk(Next(h, ev), d)
  {
    assert ConnOk(h, d) && ConnOk(h, ev.c);
  }

  lemma DetachKeepsConn(h: Hub, ev: Event, d: ConnId)
    requires LocksOk(h) && ev.DetachEnd? && Enabled(h, ev) && d in Next(h, ev).conns
    ensures ConnOk(Next(h, ev), d)
  {
    assert ConnOk(h, d) && ConnOk(h, ev.c);
  }

  lemma CallKeepsConn(h: Hub, ev: Event, d: ConnId)
    requires LocksOk(h) && (ev.Start? || ev.Send? || ev.TakeReply? || ev.Expire?) && Enabled(h, ev)
    requires d in Next(h, ev).conns
    ensures ConnOk(Next(h, ev), d)
  {
  }

  lemma TrackKeepsConn(h: Hub, ev: Event, d: ConnId)
    requires LocksOk(h) && ev.Track? && Enabled(h, ev) && d in h.conns
    ensures d in Next(h, ev).conns && ConnOk(Next(h, ev), d)
  {
    assert ConnOk(h, d);
  }

  lemma UntrackKeepsConn(h: Hub, ev: Event, d: ConnId)
    requires LocksOk(h) && ev.Untrack? && Enabled(h, ev) && d in h.conns
    ensures d in Next(h, ev).conns && ConnOk(Next(h, ev), d)
  {
    assert ConnOk(h, d);
  }

  lemma CloseAgainKeepsConn(h: Hub, ev: Event, d: ConnId)
    requires LocksOk(h) && ev.CloseBegin? && Enabled(h, ev) && h.conns[ev.c].closed && d in h.conns
    ensures d in Next(h, ev).conns && ConnOk(Next(h, ev), d)
  {
    assert ConnOk(h, d) && ConnOk(h, ev.who);
  }

  lemma CloseBeginKeepsConn(h: Hub, ev: Event, d: ConnId)
    requires LocksOk(h) && ev.CloseBegin? && Enabled(h, ev) && !h.conns[ev.c].closed && d in h.conns
    ensures d in Next(h, ev).conns && ConnOk(Next(h, ev), d)
  {
    assert ConnOk(h, d) && ConnOk(h, ev.c);
  }

  lemma ClosePutKeepsConn(h: Hub, ev: Event, d: ConnId)
    requires LocksOk(h) && ev.ClosePut? && Enabled(h, ev) && d in Next(h, ev).conns
    ensures ConnOk(Next(h, ev), d)
  {
  }

  lemma CloseEndKeepsConn(h: Hub, ev: Event, d: ConnId)
    requires LocksOk(h) && ev.CloseEnd? && Enabled(h, ev) && d in Next(h, ev).conns
    ensures ConnOk(Next(h, ev), d)
  {
  }

  lemma DeliverBeginKeepsConn(h: Hub, ev: Event, d: ConnId)
    requires LocksOk(h) && ev.DeliverBegin? && Enabled(h, ev) && d in Next(h, ev).conns
    ensures ConnOk(Next(h, ev), d)
  {
  }

  lemma DeliverEndKeepsConn(h: Hub, ev: Event, d: ConnId)
    requires LocksOk(h) && ev.DeliverEnd? && Enabled(h, ev) && d in Next(h, ev).conns
    ensures ConnOk(Next(h, ev), d)
  {
  }

  lemma CallsKeepRegistry(h: Hub, ev: Event)
    requires LocksOk(h) && Enabled(h, ev) && Calls(ev)
    ensures RegistryOk(Next(h, ev))
  {
  }

  lemma ServingKeepsRegistry(h: Hub, ev: Event)
    requires LocksOk(h) && Enabled(h, ev) && Serves(ev)
    ensures RegistryOk(Next(h, ev))
  {
  }

  lemma ClosingKeepsRegistry(h: Hub, ev: Event)
    requires LocksOk(h) && Enabled(h, ev) && !Calls(ev) && !Serves(ev)
    ensures RegistryOk(Next(h, ev))
  {
  }

  lemma RegistryKept(h: Hub, ev: Event)
    requires LocksOk(h) && Enabled(h, ev)
    ensures RegistryOk(Next(h, ev))
  {
    if Calls(ev) {
      CallsKeepRegistry(h, ev);
    } else if Serves(ev) {
      ServingKeepsRegistry(h, ev);
    } else {
      ClosingKeepsRegistry(h, ev);
    }
  }

  lemma ConnKept(h: Hub, ev: Event, d: ConnId)
    requires LocksOk(h) && Enabled(h, ev) && d in Next(h, ev).conns
    ensures ConnOk(Next(h, ev), d)
  {
    match ev
    case CloseBegin(_, c) => if h.conns[c].closed { CloseAgainKeepsConn(h, ev, d); } else { CloseBeginKeepsConn(h, ev, d); }
    case ClosePut(_, _) => ClosePutKeepsConn(h, ev, d);
    case CloseEnd(_) => CloseEndKeepsConn(h, ev, d);
    case DeliverBegin(_) => DeliverBeginKeepsConn(h, ev, d);
    case DeliverEnd(_) => DeliverEndKeepsConn(h, ev, d);
    case Track(_) => TrackKeepsConn(h, ev, d);
    case Untrack(_) => UntrackKeepsConn(h, ev, d);
    case Start(_, _) => CallKeepsConn(h, ev, d);
    case Send(_, _) => CallKeepsConn(h, ev, d);
    case TakeReply(_) => CallKeepsConn(h, ev, d);
    case Expire(_) => CallKeepsConn(h, ev, d);
    case AttachBegin(_) => AttachBeginKeepsConn(h, ev, d);
    case AttachEnd(_) => AttachEndKeepsConn(h, ev, d);
    case DetachEnd(_) => DetachKeepsConn(h, ev, d);
    case _ => ReceiveKeepsConn(h, ev, d);
  }

  lemma LocksKept(h: Hub, ev: Event)
    requires LocksOk(h) && Enabled(h, ev)
    ensures LocksOk(Next(h, ev))
  {
    RegistryKept(h, ev);
    forall d | d in Next(h, ev).conns
      ensures ConnOk(Next(h, ev), d)
    {
      ConnKept(h, ev, d);
    }
  }

  // ----- what an execution has seen ------------------------------------------------------------

  /** The stages among some messages that name one operation, in order */
  function StagesOf(ms: seq<Message>, op: OpId): seq<int> {
    if ms == [] then []
    else
      var m := ms[|ms| - 1];
      StagesOf(ms[..|ms| - 1], op) + if m.StageUpdate? && m.op == op then [m.stage] else []
  }

  /** The results among some messages that name one operation, in order */
  function AnswersOf(ms: seq<Message>, op: OpId): seq<Reply> {
    if ms == [] then []
    else
      var m := ms[|ms| - 1];
      AnswersOf(ms[..|ms| - 1], op) + if m.ExecuteResult? && m.op == op then [Answer(m.value)] else []
  }

  lemma OneMore(ms: seq<Message>, m: Message, since: nat, op: OpId)
    requires since <= |ms|
    ensures (ms + [m])[since..|ms| + 1] == ms[since..|ms|] + [m]
    ensures m.op != op ==> StagesOf(ms[since..|ms|] + [m], op) == StagesOf(ms[since..|ms|], op)
    ensures m.op != op ==> AnswersOf(ms[since..|ms|] + [m], op) == AnswersOf(ms[since..|ms|], op)
    ensures m.op == op && m.StageUpdate? ==>
              StagesOf(ms[since..|ms|] + [m], op) == StagesOf(ms[since..|ms|], op) + [m.stage] &&
              AnswersOf(ms[since..|ms|] + [m], op) == AnswersOf(ms[since..|ms|], op)
    ensures m.op == op && m.ExecuteResult? ==>
              StagesOf(ms[since..|ms|] + [m], op) == StagesOf(ms[since..|ms|], op) &&
              AnswersOf(ms[since..|ms|] + [m], op) == AnswersOf(ms[since..|ms|], op) + [Answer(m.value)]
  {
    var part := ms[since..|ms|] + [m];
    assert part[..|part| - 1] == ms[since..|ms|];
  }

  lemma {:induction ms} AnswersAreNoLosses(ms: seq<Message>, op: OpId)
    ensures ConnectionLost !in AnswersOf(ms, op)
  {
  }

  lemma Earlier(ms: seq<Message>, m: Message, since: nat, until: nat)
    requires since <= until <= |ms|
    ensures (ms + [m])[since..until] == ms[since..until]
  {
  }

  /** The messages that went by while the operation was tracked */
  function Heard(e: Exec, conn: Conn): seq<Message>
    requires e.since <= e.until <= |conn.processed|
  {
    conn.processed[e.since..e.until]
  }

  predicate InFlight(e: Exec) {
    e.phase.Tracked? || e.phase.Waiting? || e.phase.Leaving?
  }

  predicate PhaseOk(e: Exec) {
    e.taken <= |e.puts| <= e.taken + 1 &&
    (if (e.phase.Leaving? || e.phase.Returned?) && e.phase.outcome.Replied?
     then e.taken == 1 && e.puts[0] == e.phase.outcome.reply else e.taken == 0) &&
    (e.phase.Found? ==> e.stages == [] && e.puts == [])
  }

  predicate Consistent(e: Exec, conn: Conn, op: OpId) {
    e.since <= e.until <= |conn.processed| &&
    e.stages == StagesOf(Heard(e, conn), op) &&
    e.puts == AnswersOf(Heard(e, conn), op) + if ConnectionLost in e.puts then [ConnectionLost] else []
  }

  predicate TrackedOk(e: Exec, conn: Conn, op: OpId) {
    (ConnectionLost in e.puts ==> conn.closed) &&
    (op in conn.pending ==> e.until == |conn.processed|) &&
    (op in conn.pending && ConnectionLost in e.puts ==> conn.holder.Closer? && op !in conn.holder.remaining) &&
    (InFlight(e) && op !in conn.pending ==> conn.closed)
  }

  predicate ExecOk(e: Exec, conn: Conn, op: OpId) {
    PhaseOk(e) && Consistent(e, conn, op) && TrackedOk(e, conn, op)
  }

  predicate Keeps(h: Hub, op: OpId) {
    op in h.execs && h.execs[op].conn in h.conns && ExecOk(h.execs[op], h.conns[h.execs[op].conn], op)
  }

  predicate Inv(h: Hub) {
    LocksOk(h) && forall op | op in h.execs :: Keeps(h, op)
  }

  /** One message more, for an operation other than the one it names or one not tracked. */
  lemma PassingBy(e: Exec, conn: Conn, op: OpId, m: Message, conn': Conn)
    requires ExecOk(e, conn, op) && (op in conn.pending ==> m.op != op)
    requires conn' == conn.(serving := conn'.serving, holder := Free, processed := conn.processed + [m])
    requires !conn.holder.Closer?
    ensures ExecOk(if op in conn.pending then e.(until := |conn.processed| + 1) else e, conn', op)
  {
    if op in conn.pending {
      OneMore(conn.processed, m, e.since, op);
    } else {
      Earlier(conn.processed, m, e.since, e.until);
    }
  }

  lemma StageHeard(e: Exec, conn: Conn, op: OpId, m: Message, conn': Conn)
    requires Consistent(e, conn, op) && e.until == |conn.processed| && m.StageUpdate? && m.op == op
    requires conn'.processed == conn.processed + [m]
    ensures Consistent(Deliver(e, m).(until := |conn.processed| + 1), conn', op)
  {
    OneMore(conn.processed, m, e.since, op);
  }

  lemma ResultHeard(e: Exec, conn: Conn, op: OpId, m: Message, conn': Conn)
    requires Consistent(e, conn, op) && e.until == |conn.processed| && m.ExecuteResult? && m.op == op
    requires conn'.processed == conn.processed + [m] && ConnectionLost !in e.puts
    ensures Consistent(Deliver(e, m).(until := |conn.processed| + 1), conn', op)
  {
    OneMore(conn.processed, m, e.since, op);
  }

  lemma StageFits(e: Exec, conn: Conn, op: OpId, m: Message, conn': Conn)
    requires PhaseOk(e) && TrackedOk(e, conn, op) && op in conn.pending && m.StageUpdate? && !e.phase.Found?
    requires conn' == conn.(serving := conn'.serving, holder := Free, processed := conn.processed + [m]) && !conn.holder.Closer?
    ensures var e' := Deliver(e, m).(until := |conn.processed| + 1); PhaseOk(e') && TrackedOk(e', conn', op)
  {
  }

  lemma ResultFits(e: Exec, conn: Conn, op: OpId, m: Message, conn': Conn)
    requires PhaseOk(e) && TrackedOk(e, conn, op) && op in conn.pending && m.ExecuteResult? && !e.phase.Found? && !SlotFull(e)
    requires conn' == conn.(serving := conn'.serving, holder := Free, processed := conn.processed + [m]) && !conn.holder.Closer?
    ensures var e' := Deliver(e, m).(until := |conn.processed| + 1); PhaseOk(e') && TrackedOk(e', conn', op)
  {
  }

  /** One message more, for a tracked operation that it names. */
  lemma Arriving(e: Exec, conn: Conn, op: OpId, m: Message, conn': Conn)
    requires ExecOk(e, conn, op) && op in conn.pending && m.op == op && !e.phase.Found? && !conn.holder.Closer?
    requires m.ExecuteResult? ==> !SlotFull(e)
    requires conn' == conn.(serving := conn'.serving, holder := Free, processed := conn.processed + [m])
    ensures ExecOk(Deliver(e, m).(until := |conn.processed| + 1), conn', op)
  {
    if m.StageUpdate? {
      StageHeard(e, conn, op, m, conn');
      StageFits(e, conn, op, m, conn');
    } else {
      ResultHeard(e, conn, op, m, conn');
      ResultFits(e, conn, op, m, conn');
    }
  }

  lemma DeliverBeginKeepsExec(h: Hub, ev: Event, op: OpId)
    requires LocksOk(h) && Keeps(h, op) && ev.DeliverBegin? && Enabled(h, ev) && op in h.execs
    ensures Keeps(Next(h, ev), op)
  {
    assert ConnOk(h, ev.c);
    var e, conn, h' := h.execs[op], h.conns[ev.c], Next(h, ev);
    var m := conn.serving.message;
    if e.conn == ev.c && m.op !in conn.pending {
      PassingBy(e, conn, op, m, h'.conns[ev.c]);
    }
  }

  lemma DeliverEndKeepsExec(h: Hub, ev: Event, op: OpId)
    requires LocksOk(h) && Keeps(h, op) && ev.DeliverEnd? && Enabled(h, ev) && op in h.execs
    ensures Keeps(Next(h, ev), op)
  {
    assert ConnOk(h, ev.c);
    var e, conn, h' := h.execs[op], h.conns[ev.c], Next(h, ev);
    var m := conn.serving.message;
    if m.op == op {
      Arriving(e, conn, op, m, h'.conns[ev.c]);
    } else if e.conn == ev.c {
      PassingBy(e, conn, op, m, h'.conns[ev.c]);
    }
  }

  /** Nothing but the goroutine that serves the connection has changed, or closing has just begun. */
  lemma Undisturbed(e: Exec, conn: Conn, op: OpId, conn': Conn)
    requires ExecOk(e, conn, op) && conn'.processed == conn.processed && conn'.pending == conn.pending
    requires (conn'.closed == conn.closed && conn'.holder == conn.holder) ||
             (!conn.closed && conn'.closed && conn'.holder.Closer?)
    ensures ExecOk(e, conn', op)
  {
  }

  lemma Losing(e: Exec, conn: Conn, op: OpId, conn': Conn)
    requires ExecOk(e, conn, op) && op in conn.pending && !SlotFull(e) && !e.phase.Found?
    requires conn.closed && conn.holder.Closer? && op in conn.holder.remaining
    requires conn' == conn.(holder := conn.holder.(remaining := conn.holder.remaining - {op}))
    ensures ExecOk(e.(puts := e.puts + [ConnectionLost]), conn', op)
  {
    AnswersAreNoLosses(Heard(e, conn), op);
  }

  lemma OthersNotLosing(e: Exec, conn: Conn, op: OpId, other: OpId, conn': Conn)
    requires ExecOk(e, conn, op) && op != other && conn.holder.Closer?
    requires conn' == conn.(holder := conn.holder.(remaining := conn.holder.remaining - {other}))
    ensures ExecOk(e, conn', op)
  {
  }

  lemma CloseAgainKeepsExec(h: Hub, ev: Event, op: OpId)
    requires LocksOk(h) && Keeps(h, op) && ev.CloseBegin? && Enabled(h, ev) && h.conns[ev.c].closed && op in h.execs
    ensures Keeps(Next(h, ev), op)
  {
    var c, h' := h.execs[op].conn, Next(h, ev);
    Undisturbed(h.execs[op], h.conns[c], op, h'.conns[c]);
  }

  lemma CloseBeginKeepsExec(h: Hub, ev: Event, op: OpId)
    requires LocksOk(h) && Keeps(h, op) && ev.CloseBegin? && Enabled(h, ev) && !h.conns[ev.c].closed && op in h.execs
    ensures Keeps(Next(h, ev), op)
  {
    var c, h' := h.execs[op].conn, Next(h, ev);
    Undisturbed(h.execs[op], h.conns[c], op, h'.conns[c]);
  }

  lemma ClosePutKeepsExec(h: Hub, ev: Event, op: OpId)
    requires LocksOk(h) && Keeps(h, op) && ev.ClosePut? && Enabled(h, ev) && op in h.execs
    ensures Keeps(Next(h, ev), op)
  {
    assert ConnOk(h, ev.c);
    var e, h' := h.execs[op], Next(h, ev);
    if ev.op == op {
      Losing(e, h.conns[ev.c], op, h'.conns[ev.c]);
    } else if e.conn == ev.c {
      OthersNotLosing(e, h.conns[ev.c], op, ev.op, h'.conns[ev.c]);
    }
  }

  lemma CloseEndKeepsExec(h: Hub, ev: Event, op: OpId)
    requires LocksOk(h) && Keeps(h, op) && ev.CloseEnd? && Enabled(h, ev) && op in h.execs
    ensures Keeps(Next(h, ev), op)
  {
    assert ConnOk(h, ev.c);
  }

  lemma ServingKeepsExec(h: Hub, ev: Event, op: OpId)
    requires Keeps(h, op) && Serves(ev) && Enabled(h, ev)
    ensures Keeps(Next(h, ev), op)
  {
    var c := h.execs[op].conn;
    assert Next(h, ev).execs == h.execs;
    Undisturbed(h.execs[op], h.conns[c], op, Next(h, ev).conns[c]);
  }

  lemma StartKeepsExec(h: Hub, ev: Event, op: OpId)
    requires LocksOk(h) && (op in h.execs ==> Keeps(h, op)) && ev.Start? && Enabled(h, ev) && (op in h.execs || op == ev.op)
    ensures Keeps(Next(h, ev), op)
  {
  }

  lemma CallKeepsExec(h: Hub, ev: Event, op: OpId)
    requires Keeps(h, op) && (ev.Send? || ev.TakeReply? || ev.Expire?) && Enabled(h, ev)
    ensures Keeps(Next(h, ev), op)
  {
  }

  lemma TrackKeepsExec(h: Hub, ev: Event, op: OpId)
    requires LocksOk(h) && Keeps(h, op) && ev.Track? && Enabled(h, ev) && op in h.execs
    ensures Keeps(Next(h, ev), op)
  {
  }

  lemma UntrackKeepsExec(h: Hub, ev: Event, op: OpId)
    requires LocksOk(h) && Keeps(h, op) && ev.Untrack? && Enabled(h, ev) && op in h.execs
    ensures Keeps(Next(h, ev), op)
  {
  }

  lemma OnlyStartAdds(h: Hub, ev: Event)
    requires Enabled(h, ev) && !ev.Start?
    ensures Next(h, ev).execs.Keys == h.execs.Keys
  {
  }

  lemma ConnEventKeepsExec(h: Hub, ev: Event, op: OpId)
    requires LocksOk(h) && Keeps(h, op) && Enabled(h, ev) && op in h.execs && !Calls(ev)
    ensures Keeps(Next(h, ev), op)
  {
    match ev
    case CloseBegin(_, c) => if h.conns[c].closed { CloseAgainKeepsExec(h, ev, op); } else { CloseBeginKeepsExec(h, ev, op); }
    case ClosePut(_, _) => ClosePutKeepsExec(h, ev, op);
    case CloseEnd(_) => CloseEndKeepsExec(h, ev, op);
    case DeliverBegin(_) => DeliverBeginKeepsExec(h, ev, op);
    case DeliverEnd(_) => DeliverEndKeepsExec(h, ev, op);
    case _ => ServingKeepsExec(h, ev, op);
  }

  lemma CallEventKeepsExec(h: Hub, ev: Event, op: OpId)
    requires LocksOk(h) && (op in h.execs ==> Keeps(h, op)) && Enabled(h, ev) && Calls(ev) && (op in h.execs || (ev.Start? && ev.op == op))
    ensures Keeps(Next(h, ev), op)
  {
    match ev
    case Start(_, _) => StartKeepsExec(h, ev, op);
    case Track(_) => TrackKeepsExec(h, ev, op);
    case Untrack(_) => UntrackKeepsExec(h, ev, op);
    case _ => CallKeepsExec(h, ev, op);
  }

  lemma StepKeeps(h: Hub, ev: Event)
    requires Inv(h) && Enabled(h, ev)
    ensures Inv(Next(h, ev))
  {
    LocksKept(h, ev);
    if !ev.Start? {
      OnlyStartAdds(h, ev);
    }
    forall op | op in Next(h, ev).execs
      ensures Keeps(Next(h, ev), op)
    {
      if Calls(ev) {
        CallEventKeepsExec(h, ev, op);
      } else {
        ConnEventKeepsExec(h, ev, op);
      }
    }
  }

  lemma {:induction false} RunKeeps(hs: seq<Hub>, evs: seq<Event>, k: nat)
    requires Run(hs, evs) && k < |hs|
    ensures Inv(hs[k])
  {
    if k > 0 {
      RunKeeps(hs, evs, k - 1);
      assert StepAt(hs, evs, k - 1);
      StepKeeps(hs[k - 1], evs[k - 1]);
    }
  }
}
