/**
 The connection registry of the control plane as its methods run when no one else holds
 the locks; how they interleave is the subject of HubProtocols.
 */
module HubRegistries {
  import opened HubProtocols

  /** One operation in flight, with the one-slot channel its caller waits on */
  class PendingOp {
    var stages: seq<int>
    var puts: seq<Reply>
    var taken: nat

    predicate Valid()
      reads this
    {
      taken <= |puts| <= taken + 1
    }

    constructor ()
      ensures Valid() && stages == [] && puts == [] && taken == 0
    {
      stages, puts, taken := [], [], 0;
    }

    /** Sends into the channel, waiting for the caller to take a value that is still there. */
    method Put(r: Reply)
      requires Valid()
      modifies this`puts, this`taken
      ensures Valid() && puts == old(puts) + [r]
    {
      taken := |puts|;
      puts := puts + [r];
    }
  }

  class Connection {
    const node: NodeId
    var pending: map<OpId, PendingOp>
    var closed: bool

    /** Every operation has its own channel. */
    predicate Valid()
      reads this, pending.Values
    {
      (forall id | id in pending :: pending[id].Valid()) &&
      forall a, b | a in pending && b in pending && a != b :: pending[a] != pending[b]
    }

    constructor (node: NodeId)
      ensures Valid() && this.node == node && pending == map[] && !closed
    {
      this.node, pending, closed := node, map[], false;
    }

    method Track(id: OpId, p: PendingOp)
      requires Valid() && p.Valid() && p !in pending.Values
      modifies this`pending
      ensures Valid() && pending == old(pending)[id := p]
    {
      pending := pending[id := p];
    }

    method Untrack(id: OpId)
      requires Valid()
      modifies this`pending
      ensures Valid() && pending == old(pending) - {id}
    {
      pending := pending - {id};
    }

    /** Hands a message to the operation it names, if that is still tracked, and to no other. */
    method OnMessage(m: Message) returns (found: bool)
      requires Valid()
      modifies if m.op in pending then {pending[m.op]} else {}
      ensures Valid() && found == (m.op in pending)
      ensures found && m.StageUpdate? ==>
                pending[m.op].stages == old(pending[m.op].stages) + [m.stage] &&
                pending[m.op].puts == old(pending[m.op].puts)
      ensures found && m.ExecuteResult? ==>
                pending[m.op].puts == old(pending[m.op].puts) + [Answer(m.value)] &&
                pending[m.op].stages == old(pending[m.op].stages)
    {
      found := m.op in pending;
      if found {
        var p := pending[m.op];
        match m
        case StageUpdate(_, stage) => p.stages := p.stages + [stage];
        case ExecuteResult(_, value) => p.Put(Answer(value));
      }
    }

    /** Closed now: what was in flight has lost its connection, unless that had happened before. */
    twostate predicate Ended()
      reads *
    {
      closed && pending == (if old(closed) then old(pending) else map[]) &&
      forall id | id in old(pending) ::
        var p := old(pending[id]);
        p.Valid() && p.stages == old(p.stages) && p.puts == old(p.puts) + if old(closed) then [] else [ConnectionLost]
    }

    /** Ends every operation in flight with the loss of the connection, once. */
    method CloseAll()
      requires Valid()
      modifies this`closed, this`pending, pending.Values
      ensures Valid() && Ended()
    {
      if closed {
        return;
      }
      closed := true;
      var rest := pending.Keys;
      while rest != {}
        invariant rest <= pending.Keys && pending == old(pending) && closed
        invariant forall a, b | a in pending && b in pending && a != b :: pending[a] != pending[b]
        invariant forall id | id in pending ::
                    pending[id].Valid() && pending[id].stages == old(pending[id].stages) &&
                    pending[id].puts == old(pending[id].puts) + if id in rest then [] else [ConnectionLost]
        decreases rest
      {
        var id :| id in rest;
        pending[id].Put(ConnectionLost);
        rest := rest - {id};
      }
      pending := map[];
    }
  }

  class Registry {
    var conns: map<NodeId, Connection>

    constructor ()
      ensures conns == map[]
    {
      conns := map[];
    }

    /** Takes the node's place in the registry; an earlier connection of the node is closed. */
    method Attach(c: Connection)
      requires c.node in conns ==> conns[c.node].Valid()
      modifies this
      modifies if c.node in conns && conns[c.node] != c then {conns[c.node]} + conns[c.node].pending.Values else {}
      ensures conns == Attached(old(conns), c.node, c)
      ensures c.node in old(conns) && old(conns)[c.node] != c ==>
                old(conns)[c.node].Valid() && old(conns)[c.node].Ended()
    {
      if c.node in conns && conns[c.node] != c {
        conns[c.node].CloseAll();
      }
      conns := conns[c.node := c];
    }

    /** Closes the connection and clears the node's place only if that connection still holds it. */
    method Detach(c: Connection)
      requires c.Valid()
      modifies this, c, c.pending.Values
      ensures conns == Detached(old(conns), c.node, c) && c.Valid() && c.Ended()
    {
      c.CloseAll();
      if c.node in conns && conns[c.node] == c {
        conns := conns - {c.node};
      }
    }
  }
}
