/**
 What closing a connection owes the executions on it: each one that it drops from the
 table of pending operations has been told that the connection is lost.
 */
module HubLosses {
  import opened HubProtocols

  /** Dropped from the table, or passed by the loop that closes: the loss has been put into its channel. */
  predicate ToldOf(e: Exec, conn: Conn, op: OpId) {
    (InFlight(e) && op !in conn.pending ==> ConnectionLost in e.puts) &&
    (op in conn.pending && conn.holder.Closer? && op !in conn.holder.remaining ==> ConnectionLost in e.puts)
  }

  predicate Told(h: Hub, op: OpId) {
    op in h.execs && h.execs[op].conn in h.conns && ToldOf(h.execs[op], h.conns[h.execs[op].conn], op)
  }

  lemma ToldAcrossCall(h: Hub, ev: Event, op: OpId)
    requires (ev.Send? || ev.TakeReply? || ev.Expire?) && Enabled(h, ev) && Told(h, op)
    ensures Told(Next(h, ev), op)
  {
  }

  lemma ToldAcrossStart(h: Hub, ev: Event, op: OpId)
    requires LocksOk(h) && ev.Start? && Enabled(h, ev) && (ev.op == op || Told(h, op))
    ensures Told(Next(h, ev), op)
  {
    if ev.op == op {
      assert ConnOk(h, h.registry[ev.node]);
    }
  }

  lemma ToldAcrossTracking(h: Hub, ev: Event, op: OpId)
    requires (ev.Track? || ev.Untrack?) && Enabled(h, ev) && Told(h, op)
    ensures Told(Next(h, ev), op)
  {
  }

  lemma ToldAcrossServing(h: Hub, ev: Event, op: OpId)
    requires Serves(ev) && Enabled(h, ev) && Told(h, op)
    ensures Told(Next(h, ev), op)
  {
  }

  lemma ToldAcrossDeliveryBegin(h: Hub, ev: Event, op: OpId)
    requires ev.DeliverBegin? && Enabled(h, ev) && Told(h, op)
    ensures Told(Next(h, ev), op)
  {
  }

  lemma ToldAcrossDeliveryEnd(h: Hub, ev: Event, op: OpId)
    requires ev.DeliverEnd? && Enabled(h, ev) && Told(h, op)
    ensures Told(Next(h, ev), op)
  {
  }

  lemma ToldAcrossCloseBegin(h: Hub, ev: Event, op: OpId)
    requires ev.CloseBegin? && Enabled(h, ev) && Told(h, op)
    ensures Told(Next(h, ev), op)
  {
  }

  lemma ToldAcrossClosePut(h: Hub, ev: Event, op: OpId)
    requires LocksOk(h) && ev.ClosePut? && Enabled(h, ev) && Told(h, op)
    ensures Told(Next(h, ev), op)
  {
    assert ConnOk(h, ev.c);
  }

  lemma ToldAcrossCloseEnd(h: Hub, ev: Event, op: OpId)
    requires LocksOk(h) && ev.CloseEnd? && Enabled(h, ev) && Told(h, op)
    ensures Told(Next(h, ev), op)
  {
    assert ConnOk(h, ev.c);
  }

  lemma ToldStep(h: Hub, ev: Event, op: OpId)
    requires LocksOk(h) && Enabled(h, ev) && op in Next(h, ev).execs && (op in h.execs ==> Told(h, op))
    ensures Told(Next(h, ev), op)
  {
    if !ev.Start? {
      OnlyStartAdds(h, ev);
    }
    if Calls(ev) {
      ToldByCall(h, ev, op);
    } else if Serves(ev) {
      ToldAcrossServing(h, ev, op);
    } else {
      ToldByConnection(h, ev, op);
    }
  }

  lemma ToldByCall(h: Hub, ev: Event, op: OpId)
    requires LocksOk(h) && Calls(ev) && Enabled(h, ev) && op in Next(h, ev).execs && (op in h.execs ==> Told(h, op))
    ensures Told(Next(h, ev), op)
  {
    if ev.Start? {
      ToldAcrossStart(h, ev, op);
    } else if ev.Track? || ev.Untrack? {
      ToldAcrossTracking(h, ev, op);
    } else {
      ToldAcrossCall(h, ev, op);
    }
  }

  lemma ToldByConnection(h: Hub, ev: Event, op: OpId)
    requires LocksOk(h) && !Calls(ev) && !Serves(ev) && Enabled(h, ev) && Told(h, op)
    ensures Told(Next(h, ev), op)
  {
    match ev
    case DeliverBegin(_) => ToldAcrossDeliveryBegin(h, ev, op);
    case DeliverEnd(_) => ToldAcrossDeliveryEnd(h, ev, op);
    case CloseBegin(_, _) => ToldAcrossCloseBegin(h, ev, op);
    case ClosePut(_, _) => ToldAcrossClosePut(h, ev, op);
    case CloseEnd(_) => ToldAcrossCloseEnd(h, ev, op);
  }

  lemma {:induction false} ToldAlways(hs: seq<Hub>, evs: seq<Event>, k: nat, op: OpId)
    requires Run(hs, evs) && k <= |evs| && op in hs[k].execs
    ensures Told(hs[k], op)
  {
    if k > 0 {
      assert StepAt(hs, evs, k - 1);
      RunKeeps(hs, evs, k - 1);
      if op in hs[k - 1].execs {
        ToldAlways(hs, evs, k - 1, op);
      }
      ToldStep(hs[k - 1], evs[k - 1], op);
    }
  }

  /** Closing leaves nobody waiting in the dark: an execution in flight then has the loss in its channel. */
  lemma ClosingTellsEverybody(hs: seq<Hub>, evs: seq<Event>, k: nat, c: ConnId, op: OpId)
    requires Run(hs, evs) && k < |evs| && evs[k] == CloseEnd(c)
    requires op in hs[k + 1].execs && hs[k + 1].execs[op].conn == c && InFlight(hs[k + 1].execs[op])
    ensures ConnectionLost in hs[k + 1].execs[op].puts
  {
    assert StepAt(hs, evs, k);
    ToldAlways(hs, evs, k + 1, op);
    TableIsEmpty(hs[k], c);
  }

  lemma TableIsEmpty(h: Hub, c: ConnId)
    requires Enabled(h, CloseEnd(c))
    ensures Next(h, CloseEnd(c)).conns[c].pending == {}
  {
  }

  /** An execution that waits and is no longer tracked can take its reply at once. */
  lemma DroppedCanReturn(hs: seq<Hub>, evs: seq<Event>, k: nat, op: OpId)
    requires Run(hs, evs) && k <= |evs| && op in hs[k].execs && hs[k].execs[op].phase.Waiting?
    requires var c := hs[k].execs[op].conn; c in hs[k].conns ==> op !in hs[k].conns[c].pending
    ensures Enabled(hs[k], TakeReply(op))
  {
    ToldAlways(hs, evs, k, op);
    RunKeeps(hs, evs, k);
    assert Keeps(hs[k], op);
  }
}
