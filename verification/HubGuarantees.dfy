/**
 What callers and agents may rely on in every interleaving of the connection steps.
 */
module HubGuarantees {
  import opened HubProtocols

  // ----- the registry holds the latest connection that has not left -----------------------

  predicate AttachesTo(h: Hub, ev: Event, node: NodeId) {
    ev.AttachEnd? && ev.c in h.conns && h.conns[ev.c].node == node
  }

  /** `c` was the last to attach to the node before moment `k`, at step `i`, and has not detached since. */
  predicate LastAttach(hs: seq<Hub>, evs: seq<Event>, k: nat, i: int, node: NodeId, c: ConnId)
    requires k <= |evs| <= |hs|
  {
    0 <= i < k && evs[i] == AttachEnd(c) && AttachesTo(hs[i], evs[i], node) &&
    forall j | i < j < k :: evs[j] != DetachEnd(c) && !AttachesTo(hs[j], evs[j], node)
  }

  ghost predicate Latest(hs: seq<Hub>, evs: seq<Event>, k: nat, node: NodeId, c: ConnId)
    requires k <= |evs| <= |hs|
  {
    exists i :: LastAttach(hs, evs, k, i, node, c)
  }

  predicate Registered(h: Hub, node: NodeId, c: ConnId) {
    node in h.registry && h.registry[node] == c
  }

  lemma RegistryStep(h: Hub, ev: Event, node: NodeId, c: ConnId)
    requires LocksOk(h) && Enabled(h, ev)
    ensures Registered(Next(h, ev), node, c) <==>
              if AttachesTo(h, ev, node) then ev.c == c else Registered(h, node, c) && ev != DetachEnd(c)
  {
    if !Serves(ev) {
      RegistryUntouched(h, ev);
    }
  }

  lemma RegistryUntouched(h: Hub, ev: Event)
    requires Enabled(h, ev) && !Serves(ev)
    ensures Next(h, ev).registry == h.registry
  {
  }

  /** Detaching a connection that was superseded never removes its successor. */
  lemma {:induction false} RegistryIsLatest(hs: seq<Hub>, evs: seq<Event>, k: nat, node: NodeId, c: ConnId)
    requires Run(hs, evs) && k <= |evs|
    ensures Registered(hs[k], node, c) <==> Latest(hs, evs, k, node, c)
  {
    if k > 0 {
      RegistryIsLatest(hs, evs, k - 1, node, c);
      RunKeeps(hs, evs, k - 1);
      assert StepAt(hs, evs, k - 1);
      RegistryStep(hs[k - 1], evs[k - 1], node, c);
      LastAttachStep(hs, evs, k, node, c);
    }
  }

  lemma LastAttachStep(hs: seq<Hub>, evs: seq<Event>, k: nat, node: NodeId, c: ConnId)
    requires 0 < k <= |evs| <= |hs|
    ensures Latest(hs, evs, k, node, c) <==>
              if AttachesTo(hs[k - 1], evs[k - 1], node) then evs[k - 1].c == c
              else Latest(hs, evs, k - 1, node, c) && evs[k - 1] != DetachEnd(c)
  {
    var now := AttachesTo(hs[k - 1], evs[k - 1], node);
    if now && evs[k - 1].c == c {
      assert LastAttach(hs, evs, k, k - 1, node, c);
    }
    if Latest(hs, evs, k, node, c) && !now {
      var i :| LastAttach(hs, evs, k, i, node, c);
      assert LastAttach(hs, evs, k - 1, i, node, c);
    }
    if !now && evs[k - 1] != DetachEnd(c) && Latest(hs, evs, k - 1, node, c) {
      var i :| LastAttach(hs, evs, k - 1, i, node, c);
      assert LastAttach(hs, evs, k, i, node, c);
    }
  }

  // ----- nothing happens to an execution that has returned ----------------------------------

  predicate Delivers(h: Hub, c: ConnId, op: OpId) {
    c in h.conns && h.conns[c].serving.Delivering? && h.conns[c].serving.message.op == op
  }

  lemma ReturnedIsFinal(h: Hub, ev: Event, op: OpId)
    requires LocksOk(h) && Enabled(h, ev) && op in h.execs && h.execs[op].phase.Returned?
    ensures op in Next(h, ev).execs && Next(h, ev).execs[op] == h.execs[op]
  {
    if Calls(ev) || Serves(ev) {
      FinalAcrossCalls(h, ev, op);
    } else {
      FinalAcrossConn(h, ev, op);
    }
  }

  lemma FinalAcrossCalls(h: Hub, ev: Event, op: OpId)
    requires Enabled(h, ev) && (Calls(ev) || Serves(ev)) && op in h.execs && h.execs[op].phase.Returned?
    ensures op in Next(h, ev).execs && Next(h, ev).execs[op] == h.execs[op]
  {
  }

  lemma FinalAcrossConn(h: Hub, ev: Event, op: OpId)
    requires LocksOk(h) && Enabled(h, ev) && !Calls(ev) && !Serves(ev) && op in h.execs && h.execs[op].phase.Returned?
    ensures op in Next(h, ev).execs && Next(h, ev).execs[op] == h.execs[op]
  {
    if ev.DeliverEnd? || ev.DeliverBegin? || ev.ClosePut? {
      assert ConnOk(h, ev.c);
    }
  }

  /**
   Once Execute has returned, no callback of it runs or starts, and neither its stages,
   its reply nor its outcome ever change.
   */
  lemma SilentAfterReturn(hs: seq<Hub>, evs: seq<Event>, k: nat, l: nat, op: OpId)
    requires Run(hs, evs) && k <= l < |hs|
    requires op in hs[k].execs && hs[k].execs[op].phase.Returned?
    ensures op in hs[l].execs && hs[l].execs[op] == hs[k].execs[op]
    ensures forall c :: !Delivers(hs[l], c, op)
  {
    FinalOverRun(hs, evs, k, l, op);
    RunKeeps(hs, evs, l);
    NothingDelivered(hs[l], op);
  }

  lemma {:induction false} FinalOverRun(hs: seq<Hub>, evs: seq<Event>, k: nat, l: nat, op: OpId)
    requires Run(hs, evs) && k <= l < |hs|
    requires op in hs[k].execs && hs[k].execs[op].phase.Returned?
    ensures op in hs[l].execs && hs[l].execs[op] == hs[k].execs[op]
    decreases l
  {
    if k < l {
      FinalOverRun(hs, evs, k, l - 1, op);
      RunKeeps(hs, evs, l - 1);
      assert StepAt(hs, evs, l - 1);
      ReturnedIsFinal(hs[l - 1], evs[l - 1], op);
    }
  }

  lemma NothingDelivered(h: Hub, op: OpId)
    requires LocksOk(h) && op in h.execs && h.execs[op].phase.Returned?
    ensures forall c :: !Delivers(h, c, op)
  {
    forall c | c in h.conns
      ensures !Delivers(h, c, op)
    {
      assert ConnOk(h, c);
    }
  }

  // ----- messages reach the operation they name -----------------------------------------------

  /** The messages that an agent has sent up one connection, in order */
  function Incoming(evs: seq<Event>, c: ConnId): seq<Message> {
    if evs == [] then []
    else
      var ev := evs[|evs| - 1];
      Incoming(evs[..|evs| - 1], c) + if ev.Receive? && ev.c == c then [ev.message] else []
  }

  /** The message being dealt with */
  function InHand(conn: Conn): seq<Message> {
    if conn.serving.Received? || conn.serving.Delivering? then [conn.serving.message] else []
  }

  function SoFar(h: Hub, c: ConnId): seq<Message> {
    if c in h.conns then h.conns[c].processed + InHand(h.conns[c]) else []
  }

  lemma SoFarStep(h: Hub, ev: Event, c: ConnId)
    requires LocksOk(h) && Enabled(h, ev)
    ensures SoFar(Next(h, ev), c) == SoFar(h, c) + if ev.Receive? && ev.c == c then [ev.message] else []
  {
    if Calls(ev) {
      SoFarCalls(h, ev, c);
    } else if ev.CloseBegin? || ev.ClosePut? || ev.CloseEnd? {
      SoFarClosing(h, ev, c);
    } else {
      SoFarServing(h, ev, c);
    }
  }

  lemma SoFarCalls(h: Hub, ev: Event, c: ConnId)
    requires Enabled(h, ev) && Calls(ev)
    ensures SoFar(Next(h, ev), c) == SoFar(h, c)
  {
  }

  lemma SoFarClosing(h: Hub, ev: Event, c: ConnId)
    requires LocksOk(h) && Enabled(h, ev) && (ev.CloseBegin? || ev.ClosePut? || ev.CloseEnd?)
    ensures SoFar(Next(h, ev), c) == SoFar(h, c)
  {
    assert ConnOk(h, ev.c);
  }

  lemma SoFarServing(h: Hub, ev: Event, c: ConnId)
    requires Enabled(h, ev) && (Serves(ev) || ev.DeliverBegin? || ev.DeliverEnd?)
    ensures SoFar(Next(h, ev), c) == SoFar(h, c) + if ev.Receive? && ev.c == c then [ev.message] else []
  {
  }

  /** No message is lost on the way, dealt with twice or dealt with out of order. */
  lemma {:induction false} ProcessedInOrder(hs: seq<Hub>, evs: seq<Event>, k: nat, c: ConnId)
    requires Run(hs, evs) && k <= |evs|
    ensures SoFar(hs[k], c) == Incoming(evs[..k], c)
  {
    if k > 0 {
      ProcessedInOrder(hs, evs, k - 1, c);
      RunKeeps(hs, evs, k - 1);
      assert StepAt(hs, evs, k - 1);
      SoFarStep(hs[k - 1], evs[k - 1], c);
      IncomingStep(evs, k, c);
    }
  }

  lemma IncomingStep(evs: seq<Event>, k: nat, c: ConnId)
    requires 0 < k <= |evs|
    ensures var ev := evs[k - 1];
            Incoming(evs[..k], c) == Incoming(evs[..k - 1], c) + if ev.Receive? && ev.c == c then [ev.message] else []
  {
    assert evs[..k][..k - 1] == evs[..k - 1];
  }

  /**
   An execution sees exactly the stages that name it among the messages of its own
   connection since it was tracked; if it ends with a reply, that is the first result
   naming it there, or, when none came, the loss of that connection.
   */
  lemma SeesItsOwn(hs: seq<Hub>, evs: seq<Event>, k: nat, op: OpId)
    requires Run(hs, evs) && k <= |evs| && op in hs[k].execs
    ensures var e := hs[k].execs[op];
            e.conn in hs[k].conns && e.since <= e.until <= |hs[k].conns[e.conn].processed|
    ensures var e := hs[k].execs[op];
            var heard := Heard(e, hs[k].conns[e.conn]);
            e.stages == StagesOf(heard, op) &&
            (e.phase.Returned? && e.phase.outcome.Replied? ==>
              var answers := AnswersOf(heard, op);
              if answers != [] then e.phase.outcome.reply == answers[0]
              else e.phase.outcome.reply == ConnectionLost && hs[k].conns[e.conn].closed)
    ensures var e := hs[k].execs[op];
            InFlight(e) && !hs[k].conns[e.conn].closed ==> e.until == |hs[k].conns[e.conn].processed|
  {
    RunKeeps(hs, evs, k);
    assert Keeps(hs[k], op);
  }

  // ----- why an execution ended ------------------------------------------------------------

  /** On its way out or returned, with this kind of outcome. */
  predicate EndedBy(h: Hub, op: OpId, cause: Event)
    requires cause.Send? || cause.Expire? || cause.TakeReply?
  {
    op in h.execs && (h.execs[op].phase.Leaving? || h.execs[op].phase.Returned?) &&
    match cause
    case Send(_, _) => h.execs[op].phase.outcome.Undelivered?
    case Expire(_) => h.execs[op].phase.outcome.TimedOut?
    case TakeReply(_) => h.execs[op].phase.outcome.Replied?
  }

  predicate Happened(evs: seq<Event>, k: nat, ev: Event)
    requires k <= |evs|
  {
    exists i :: 0 <= i < k && evs[i] == ev
  }

  predicate CauseOf(op: OpId, cause: Event) {
    cause == Send(op, false) || cause == Expire(op) || cause == TakeReply(op)
  }

  lemma EndedStep(h: Hub, ev: Event, op: OpId, cause: Event)
    requires Enabled(h, ev) && CauseOf(op, cause)
    ensures EndedBy(Next(h, ev), op, cause) <==> EndedBy(h, op, cause) || ev == cause
  {
    if Calls(ev) {
      EndedByCall(h, ev, op, cause);
    } else if ev.DeliverBegin? || ev.DeliverEnd? {
      EndedByDelivery(h, ev, op, cause);
    } else {
      EndedOtherwise(h, ev, op, cause);
    }
  }

  lemma EndedByCall(h: Hub, ev: Event, op: OpId, cause: Event)
    requires Enabled(h, ev) && CauseOf(op, cause) && Calls(ev)
    ensures EndedBy(Next(h, ev), op, cause) <==> EndedBy(h, op, cause) || ev == cause
  {
  }

  lemma EndedByDelivery(h: Hub, ev: Event, op: OpId, cause: Event)
    requires Enabled(h, ev) && CauseOf(op, cause) && (ev.DeliverBegin? || ev.DeliverEnd?)
    ensures EndedBy(Next(h, ev), op, cause) <==> EndedBy(h, op, cause)
  {
  }

  lemma EndedOtherwise(h: Hub, ev: Event, op: OpId, cause: Event)
    requires Enabled(h, ev) && CauseOf(op, cause) && !Calls(ev) && !ev.DeliverBegin? && !ev.DeliverEnd?
    ensures EndedBy(Next(h, ev), op, cause) <==> EndedBy(h, op, cause)
  {
  }

  /**
   In every run an execution ends as undelivered exactly when its send failed, as timed
   out exactly when its deadline passed while it waited, and with a reply exactly when it
   took one.
   */
  lemma {:induction false} EndsForItsCause(hs: seq<Hub>, evs: seq<Event>, k: nat, op: OpId, cause: Event)
    requires Run(hs, evs) && k <= |evs| && CauseOf(op, cause)
    ensures EndedBy(hs[k], op, cause) <==> Happened(evs, k, cause)
  {
    if k > 0 {
      EndsForItsCause(hs, evs, k - 1, op, cause);
      assert StepAt(hs, evs, k - 1);
      EndedStep(hs[k - 1], evs[k - 1], op, cause);
      assert Happened(evs, k, cause) <==> Happened(evs, k - 1, cause) || evs[k - 1] == cause by {
        if Happened(evs, k - 1, cause) {
          var i :| 0 <= i < k - 1 && evs[i] == cause;
          assert evs[i] == cause;
        }
      }
    }
  }
}
