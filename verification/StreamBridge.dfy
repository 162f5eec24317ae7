/**
 The bridge that carries a console's byte stream between the control plane and
 the agent: one bounded channel of chunks in each direction. Two pumps on the
 agent's side run concurrently with the console's reads and writes.
 */
module StreamBridges {

  newtype byte = x: int | 0 <= x < 256

  const STREAM_CHUNK_SIZE := 32 * 1024

  const CHANNEL_CAPACITY := 16

  function Flatten(chunks: seq<seq<byte>>): seq<byte> {
    if chunks == [] then [] else chunks[0] + Flatten(chunks[1..])
  }

  lemma {:induction false} FlattenAppend(chunks: seq<seq<byte>>, chunk: seq<byte>)
    ensures Flatten(chunks + [chunk]) == Flatten(chunks) + chunk
  {
    if chunks == [] {
      assert [chunk][1..] == [];
    } else {
      assert (chunks + [chunk])[1..] == chunks[1..] + [chunk];
      FlattenAppend(chunks[1..], chunk);
    }
  }

  lemma CutFront(before: seq<byte>, chunk: seq<byte>, n: nat, rest: seq<byte>)
    requires n <= |chunk|
    ensures (before + chunk[..n]) + chunk[n..] + rest == before + chunk + rest
  {
  }

  lemma Dequeue(before: seq<byte>, chunks: seq<seq<byte>>)
    requires chunks != []
    ensures before + chunks[0] + Flatten(chunks[1..]) == before + [] + Flatten(chunks)
  {
  }

  function Min(a: nat, b: nat): nat {
    if a < b then a else b
  }

  class StreamBridge {
    var toAgent: seq<seq<byte>>
    var fromAgent: seq<seq<byte>>
    var pend: seq<byte>
    var closed: bool
    /** Whether the two pumps are still running. */
    var sending: bool
    var receiving: bool

    // Histories: what each end has put in and taken out so far.
    ghost var accepted: seq<byte>
    ghost var delivered: seq<byte>
    ghost var arrived: seq<byte>
    ghost var consumed: seq<byte>

    /**
     Nothing is lost, repeated or reordered on the way. A pump that has stopped may
     have dropped its last chunk; what came out is then still a prefix of what went in.
     */
    ghost predicate Valid()
      reads this
    {
      |toAgent| <= CHANNEL_CAPACITY && |fromAgent| <= CHANNEL_CAPACITY &&
      (forall i | 0 <= i < |toAgent| :: 0 < |toAgent[i]| <= STREAM_CHUNK_SIZE) &&
      (!sending ==> closed) && (!receiving ==> closed) &&
      (sending ==> delivered + Flatten(toAgent) == accepted) && delivered <= accepted &&
      (receiving ==> consumed + pend + Flatten(fromAgent) == arrived) && consumed + pend + Flatten(fromAgent) <= arrived
    }

    /** What another goroutine may do to the bridge without disturbing the console's end. */
    twostate predicate Disturbed()
      reads this
    {
      Valid() && accepted == old(accepted) && consumed == old(consumed) && pend == old(pend) &&
      old(delivered) <= delivered && old(arrived) <= arrived && old(fromAgent) <= fromAgent && (old(closed) ==> closed)
    }

    constructor ()
      ensures Valid() && !closed && sending && receiving
      ensures accepted == [] && delivered == [] && arrived == [] && consumed == []
    {
      toAgent, fromAgent, pend := [], [], [];
      closed, sending, receiving := false, true, true;
      accepted, delivered, arrived, consumed := [], [], [], [];
    }

    method Close()
      requires Valid()
      modifies this`closed
      ensures Disturbed() && closed
    {
      closed := true;
    }

    /** One turn of the loop that forwards to the agent; Send may fail, which drops the chunk and ends the loop. */
    method PumpToAgent(failed: bool)
      requires Valid()
      modifies this`toAgent, this`delivered, this`sending, this`closed
      ensures Disturbed()
      ensures old(sending) && old(toAgent) != [] ==>
                toAgent == old(toAgent)[1..] &&
                delivered == (if failed then old(delivered) else old(delivered) + old(toAgent)[0]) &&
                sending == !failed && closed == (failed || old(closed))
      ensures !old(sending) || old(toAgent) == [] ==>
                toAgent == old(toAgent) && delivered == old(delivered) && sending == old(sending) && closed == old(closed)
    {
      if !sending || |toAgent| == 0 {
        return;
      }
      var chunk := toAgent[0];
      assert Flatten(toAgent) == chunk + Flatten(toAgent[1..]);
      toAgent := toAgent[1..];
      if failed {
        sending, closed := false, true;
        return;
      }
      delivered := delivered + chunk;
    }

    /** One turn of the loop that takes chunks from the agent: a chunk that finds the bridge closed is dropped. */
    method PumpFromAgent(chunk: seq<byte>)
      requires Valid()
      modifies this`fromAgent, this`arrived, this`receiving
      ensures Disturbed()
      ensures receiving == (old(receiving) && !closed)
      ensures var turns := old(receiving) && (closed || |old(fromAgent)| < CHANNEL_CAPACITY);
              arrived == (if turns then old(arrived) + chunk else old(arrived)) &&
              fromAgent == if turns && !closed then old(fromAgent) + [chunk] else old(fromAgent)
    {
      if !receiving || (!closed && |fromAgent| == CHANNEL_CAPACITY) {
        return;  // finished, or blocked until there is room
      }
      arrived := arrived + chunk;
      if closed {
        receiving := false;
        return;
      }
      FlattenAppend(fromAgent, chunk);
      fromAgent := fromAgent + [chunk];
    }

    /** Any number of turns of the other goroutines. */
    method Interfere(turns: nat, chunks: seq<seq<byte>>)
      requires Valid()
      modifies this
      ensures Disturbed()
    {
      for i := 0 to turns
        invariant Disturbed()
      {
        var who: int := *;
        if who == 0 {
          var failed: bool := *;
          PumpToAgent(failed);
        } else if who == 1 && i < |chunks| {
          PumpFromAgent(chunks[i]);
        } else if who == 2 {
          Close();
        }
      }
    }

    /** A send blocks until there is room or someone has closed the bridge. */
    method AwaitRoom()
      requires Valid()
      modifies this
      ensures Disturbed() && (closed || |toAgent| < CHANNEL_CAPACITY)
    {
      var turns: nat, chunks: seq<seq<byte>> := *, *;
      Interfere(turns, chunks);
      if |toAgent| >= CHANNEL_CAPACITY {
        Close();  // with the agent's side stuck, only a close ends the wait
      }
    }

    /** A receive blocks until there is a chunk or someone has closed the bridge; left-over chunks still come out. */
    method AwaitChunk()
      requires Valid()
      modifies this
      ensures Disturbed() && (closed || |fromAgent| > 0)
    {
      var turns: nat, chunks: seq<seq<byte>> := *, *;
      Interfere(turns, chunks);
      if |fromAgent| == 0 {
        Close();  // with the agent silent, only a close ends the wait
      }
    }

    /**
     Reads into p. The bytes handed out continue the stream exactly where the last
     read stopped, whatever the sizes of the chunks and of the buffers. They are as much
     as fits of what the last read left over or, when that is nothing, of the first
     chunk of the queue that is found once there is one.
     */
    method Read(p: array<byte>) returns (n: nat, ok: bool, ghost queue: seq<seq<byte>>)
      requires Valid()
      modifies this, p
      ensures Valid() && n <= p.Length
      ensures consumed == old(consumed) + p[..n] && p[n..] == old(p[n..])
      ensures old(pend) != [] ==>
                ok && n == Min(p.Length, |old(pend)|) && pend == old(pend)[n..] && fromAgent == old(fromAgent)
      ensures old(pend) == [] ==> old(fromAgent) <= queue && (ok <==> queue != [])
      ensures old(pend) == [] && ok ==>
                n == Min(p.Length, |queue[0]|) && p[..n] + pend == queue[0] && fromAgent == queue[1..]
      ensures !ok ==> n == 0 && closed && pend == [] && fromAgent == []
      ensures accepted == old(accepted) && old(arrived) <= arrived
    {
      queue := fromAgent;
      if |pend| > 0 {
        n := Copy(p, pend);
        CutFront(consumed, pend, n, Flatten(fromAgent));
        consumed, pend := consumed + pend[..n], pend[n..];
        return n, true, queue;
      }
      AwaitChunk();
      queue := fromAgent;
      if |fromAgent| == 0 {
        return 0, false, queue;
      }
      var chunk := fromAgent[0];
      n := Copy(p, chunk);
      Dequeue(consumed, fromAgent);
      CutFront(consumed, chunk, n, Flatten(fromAgent[1..]));
      fromAgent, consumed := fromAgent[1..], consumed + chunk[..n];
      if n < |chunk| {
        pend := chunk[n..];
      }
      ok := true;
    }

    /** Go's copy */
    method Copy(p: array<byte>, src: seq<byte>) returns (n: nat)
      modifies p
      ensures n == Min(p.Length, |src|) && n <= p.Length
      ensures p[..n] == src[..n] && p[n..] == old(p[n..])
    {
      n := if p.Length < |src| then p.Length else |src|;
      for i := 0 to n
        invariant p[..i] == src[..i] && p[i..] == old(p[i..])
      {
        p[i] := src[i];
      }
    }

    method Enqueue(chunk: seq<byte>)
      requires Valid() && |toAgent| < CHANNEL_CAPACITY && 0 < |chunk| <= STREAM_CHUNK_SIZE
      modifies this`toAgent, this`accepted
      ensures Valid() && accepted == old(accepted) + chunk
    {
      FlattenAppend(toAgent, chunk);
      toAgent := toAgent + [chunk];
      accepted := accepted + chunk;
    }

    /**
     Writes p in chunks while the other goroutines run. The full length is returned
     only when every byte was queued in order; an error may leave a prefix queued.
     */
    method Write(p: seq<byte>) returns (n: nat, ok: bool)
      requires Valid()
      modifies this
      ensures Valid()
      ensures ok ==> n == |p| && accepted == old(accepted) + p
      ensures !ok ==> n == 0 && closed && old(accepted) <= accepted <= old(accepted) + p
      ensures old(closed) ==> !ok && accepted == old(accepted)
      ensures consumed == old(consumed) && pend == old(pend) && old(delivered) <= delivered
    {
      if closed {
        return 0, false;
      }
      var rest := p;
      while |rest| > 0
        invariant Valid()
        invariant rest == p[|p| - |rest|..] && accepted == old(accepted) + p[..|p| - |rest|]
        invariant consumed == old(consumed) && pend == old(pend) && old(delivered) <= delivered
        decreases |rest|
      {
        var n := |rest|;
        if n > STREAM_CHUNK_SIZE {
          n := STREAM_CHUNK_SIZE;
        }
        var chunk := rest[..n];
        AwaitRoom();
        if closed {
          return 0, false;
        }
        Enqueue(chunk);
        assert rest == chunk + rest[n..];
        rest := rest[n..];
      }
      return |p|, true;
    }
  }
}
