/**
  The server's buffer traffic: VoiceTcpManager, VoiceUdpManager, SessionManager, SessionHandler and Session
  move pooled buffers between the pool, tokenizers, session queues and voice lists. Every method is one
  step of a thread, taken as a whole; threads interleave steps in any order.
 */
module VoiceServers {
  import opened Framing
  import opened Options
  import opened Ownership
  import opened BufferPools
  import opened PacketTokenizing
  import opened VoicePacket
  import opened VoiceDataLists
  import opened Traffics

  /** The first `k` packets of `q` have been written out. */
  ghost predicate IsRelayed(sent: seq<seq<byte>>, q: seq<Buffer>, k: nat) {
    k <= |q| && sent == Relayed(q[..k])
  }

  lemma RelayedNothing(q: seq<Buffer>)
    ensures IsRelayed([], q, 0)
  {
  }

  lemma RelayedNext(q: seq<Buffer>, k: nat)
    requires k < |q|
    ensures Relayed(q[..k + 1]) == Relayed(q[..k]) + FrameOf(q[k].bytes)
  {
    assert q[..k + 1][..k] == q[..k];
  }

  lemma BytesOfNext(q: seq<Buffer>, k: nat)
    ensures BytesOf([]) == [] && q[..0] == []
    ensures k < |q| ==> BytesOf(q[..k + 1]) == BytesOf(q[..k]) + [q[k].bytes]
  {
  }

  lemma TakenOne(q: seq<Buffer>, count: nat)
    requires 0 < count <= |q|
    ensures q[..count] == q[..count - 1] + [q[count - 1]]
    ensures count < |q| ==> q[AtMost(|q|, count)..][0] == q[count] && q[AtMost(|q|, count)..][1..] == q[AtMost(|q|, count + 1)..]
    ensures count == |q| ==> q[AtMost(|q|, count)..] == [] && q[AtMost(|q|, count + 1)..] == []
  {
  }

  lemma DataMoves(q: seq<Buffer>, b: Buffer)
    ensures AllData([])
    ensures AllData(q) && AllData([b]) ==> AllData(q + [b])
    ensures q != [] && AllData(q) ==> AllData(q[1..]) && AllData([q[0]])
  {
    if AllData(q) && AllData([b]) {
      assert [b][0] == b;
    }
  }

  /**
    Where a loop stands that takes the buffers `q` of place `p` one after the other and gives each back: `count`
    are back in the pool, the next one, if any, is in hand, the others are still queued.
   */
  function TakenTo(m: Memory, p: Place, q: seq<Buffer>, count: nat): Memory
    requires count <= |q|
  {
    m.(at := m.at[p := q[AtMost(|q|, count + 1)..]], free := m.free + q[..count])
  }

  class VoiceServer {
    const pool: BufferPool
    const sessions: set<int>
    var at: Queues
    var offered: map<int, set<int>>
    var streams: map<Place, Tokenizer>
    ghost var hand: seq<Buffer>
    ghost var lost: seq<Buffer>
    ghost var owner: map<nat, Place>

    ghost function Mem(): Memory
      reads this, pool
    {
      Memory(at, offered, streams, pool.bufferQueue, lost)
    }

    ghost function Places(): Queues
      reads this, pool
    {
      at[Free := pool.bufferQueue][Hand := hand][Lost := lost]
    }

    /** Every buffer of the pool is at exactly one place. */
    ghost predicate Valid()
      reads this, pool, pool.semaphores
    {
      pool.Valid() && Ready(Mem(), sessions) && Consistent(Places(), owner, pool.semaphores.Length)
    }

    /** Between steps no method holds a buffer. */
    ghost predicate Idle()
      reads this, pool, pool.semaphores
    {
      Valid() && hand == []
    }

    constructor (size: nat, sessions: set<int>)
      ensures Idle() && fresh(pool) && fresh(pool.semaphores) && pool.semaphores.Length == size
      ensures this.sessions == sessions && lost == [] && |pool.bufferQueue| == size
    {
      hide BufferPool.Valid, Consistent, EmptyPlaces, AllOwned, NoStreams, Ready;
      this.pool := new BufferPool(size);
      this.sessions := sessions;
      at := EmptyPlaces(sessions);
      offered := map s | s in sessions :: {};
      streams := NoStreams(sessions);
      hand, lost := [], [];
      new;
      owner := AllOwned(size);
      StartReady(Mem(), sessions);
      AllFree(Places(), owner, size);
    }

    /** Between steps each buffer of the pool is at exactly one place, and that is not anybody's hand. */
    lemma OnePlaceEach(k: nat)
      requires Idle() && k < pool.semaphores.Length
      ensures ExactlyOnce(Places(), k) && forall i :: !InPlace(Places(), Hand, i, k)
    {
      hide BufferPool.Valid, Ready;
      ConsistentIsPartition(Places(), owner, pool.semaphores.Length, k);
    }

    /** Takes a buffer from the pool, for `bytes` to be put into it; fails when the pool is empty. */
    method Allocate(bytes: seq<byte>) returns (b: Option<Buffer>)
      requires Idle()
      modifies this, pool, pool.semaphores
      ensures Valid() && hand == if b.Some? then [b.value] else []
      ensures var m := old(Mem());
              if m.free == [] then b == None && Mem() == m
              else b == Some(Buffer(m.free[0].key, bytes)) && Mem() == m.(free := m.free[1..])
    {
      hide Consistent, BufferPool.Valid, Holds, AllData;
      var got := pool.Allocate();
      if got.None? {
        return None;
      }
      b := Some(got.value.(bytes := bytes));
      MovedConsistent(old(Places()), owner, pool.semaphores.Length, Free, Hand, bytes);
      hand, owner := hand + [b.value], owner[b.value.key := Hand];
      assert Places() == Moved(old(Places()), Free, Hand, bytes);
    }

    /** Gives the buffer in hand back; the pool never refuses it. */
    method Release(b: Buffer)
      requires Valid() && hand == [b]
      modifies this, pool, pool.semaphores
      ensures Idle() && Mem() == Freed(old(Mem()), b)
    {
      hide Consistent, BufferPool.Valid, Holds, AllData;
      MovedConsistent(Places(), owner, pool.semaphores.Length, Hand, Free, b.bytes);
      NotFree(Places(), owner, pool.semaphores.Length, Hand, b);
      var done := pool.Deallocate(Some(b));
      hand, owner := [], owner[b.key := Free];
      assert [b][1..] == [] && Buffer(b.key, b.bytes) == b;
      assert Places() == Moved(old(Places()), Hand, Free, b.bytes);
    }

    /** Only in the record: the buffer in hand is dropped for good. */
    ghost method Lose(b: Buffer)
      requires Valid() && hand == [b]
      modifies this`hand, this`lost, this`owner
      ensures Idle() && Mem() == Dropped(old(Mem()), b)
    {
      hide Consistent, BufferPool.Valid, Holds, AllData;
      MovedConsistent(Places(), owner, pool.semaphores.Length, Hand, Lost, b.bytes);
      hand, lost, owner := [], lost + [b], owner[b.key := Lost];
      assert [b][1..] == [] && Buffer(b.key, b.bytes) == b;
      assert Places() == Moved(old(Places()), Hand, Lost, b.bytes);
    }

    /** Puts the buffer in hand at the back of a queue. */
    method Enqueue(b: Buffer, p: Place)
      requires Valid() && hand == [b] && p in at && (p.VoiceList? ==> AllData([b]))
      modifies this, pool, pool.semaphores
      ensures Idle() && Mem() == Appended(old(Mem()), p, [b])
    {
      hide Consistent, BufferPool.Valid, Holds, AllData;
      MovedConsistent(Places(), owner, pool.semaphores.Length, Hand, p, b.bytes);
      DataMoves(at[p], b);
      at := at[p := at[p] + [b]];
      hand, owner := [], owner[b.key := p];
      assert [b][1..] == [] && Buffer(b.key, b.bytes) == b;
      assert Places() == Moved(old(Places()), Hand, p, b.bytes);
    }

    /** Takes the front buffer of a queue into hand. */
    method Dequeue(p: Place) returns (b: Option<Buffer>)
      requires Idle() && p in at
      modifies this, pool, pool.semaphores
      ensures Valid() && hand == if b.Some? then [b.value] else []
      ensures var m := old(Mem());
              if m.at[p] == [] then b == None && Mem() == m else b == Some(m.at[p][0]) && Mem() == Popped(m, p)
    {
      hide Consistent, BufferPool.Valid, Holds, AllData;
      if at[p] == [] {
        return None;
      }
      b := Some(at[p][0]);
      DataMoves(at[p], b.value);
      MovedConsistent(Places(), owner, pool.semaphores.Length, p, Hand, b.value.bytes);
      at := at[p := at[p][1..]];
      hand, owner := hand + [b.value], owner[b.value.key := Hand];
      assert Places() == Moved(old(Places()), p, Hand, b.value.bytes);
    }

    /** A tokenizer's emission: a fresh buffer, filled, at the back of its queue. Fails when the pool is empty. */
    method Emit(p: Place, bytes: seq<byte>) returns (ok: bool)
      requires Valid() && p in at && !p.VoiceList?
      modifies this, pool, pool.semaphores
      ensures Valid() && hand == old(hand) && (ok <==> old(pool.bufferQueue) != [])
      ensures var m := old(Mem());
              Mem() == if ok then Appended(m, p, [Buffer(m.free[0].key, bytes)]).(free := m.free[1..]) else m
    {
      hide Consistent, BufferPool.Valid, Holds, AllData;
      ghost var before := Places();
      var got := pool.Allocate();
      if got.None? {
        return false;
      }
      MovedConsistent(before, owner, pool.semaphores.Length, Free, p, bytes);
      at := at[p := at[p] + [got.value.(bytes := bytes)]];
      owner := owner[got.value.key := p];
      assert Places() == Moved(before, Free, p, bytes);
      return true;
    }

    /** The tokenizer's part of a read: one buffer per packet found, as long as the pool has any. */
    method EmitAll(p: Place, packets: seq<seq<byte>>) returns (ok: bool)
      requires Valid() && p in at && !p.VoiceList?
      modifies this, pool, pool.semaphores
      ensures Valid() && hand == old(hand) && Mem() == Emitted(old(Mem()), p, packets)
      ensures ok <==> |packets| <= |old(Mem()).free|
    {
      hide Consistent, BufferPool.Valid, Ready, AllData, VoiceServer.Places, Emitted, Appended;
      ghost var m := Mem();
      EmittedNothing(m, p, packets);
      for i := 0 to |packets|
        invariant Valid() && hand == old(hand) && p in at
        invariant i <= |m.free| && Mem() == Emitted(m, p, packets[..i])
      {
        EmittedNext(m, p, packets, i);
        var done := Emit(p, packets[i]);
        if !done {
          return false;
        }
      }
      assert packets[..|packets|] == packets;
      return true;
    }

    /** Takes the front buffer of a queue and gives it back at once. */
    method GiveFront(p: Place)
      requires Valid() && p in at && at[p] != []
      modifies this, pool, pool.semaphores
      ensures Valid() && hand == old(hand) && Mem() == Freed(Popped(old(Mem()), p), old(at)[p][0])
    {
      hide Consistent, BufferPool.Valid, Holds, AllData;
      var b := at[p][0];
      DataMoves(at[p], b);
      MovedConsistent(Places(), owner, pool.semaphores.Length, p, Free, b.bytes);
      NotFree(Places(), owner, pool.semaphores.Length, p, b);
      at := at[p := at[p][1..]];
      var done := pool.Deallocate(Some(b));
      owner := owner[b.key := Free];
      assert Places() == Moved(old(Places()), p, Free, b.bytes);
    }

    /** Empties a queue into the pool, front first. */
    method Flush(p: Place)
      requires Valid() && p in at
      modifies this, pool, pool.semaphores
      ensures Valid() && hand == old(hand) && Mem() == Emptied(old(Mem()), p)
    {
      hide Consistent, BufferPool.Valid, Ready, AllData, VoiceServer.Places;
      ghost var m := Mem();
      while at[p] != []
        invariant Valid() && hand == old(hand) && p in at && Emptied(Mem(), p) == Emptied(m, p)
        decreases |at[p]|
      {
        EmptiedStep(Mem(), p);
        GiveFront(p);
      }
      EmptiedStep(Mem(), p);
    }

    /** PacketTokenizer.flush: what is held is forgotten, what is queued goes back. */
    method FlushTokens(p: Place)
      requires Valid() && p in at && IsTokens(p)
      modifies this, pool, pool.semaphores
      ensures Valid() && hand == old(hand) && Mem() == Flushed(old(Mem()), p)
    {
      hide Consistent, BufferPool.Valid, AllData;
      streams := streams[p := NEW_STREAM];
      assert Places() == at[Free := pool.bufferQueue][Hand := hand][Lost := lost];
      Flush(p);
    }

    /** The bytes go through the tokenizer; its packets, returned, have yet to be put into buffers. */
    method Feed(p: Place, bytes: seq<byte>) returns (packets: seq<seq<byte>>)
      requires Valid() && p in at && IsTokens(p)
      modifies this, pool, pool.semaphores
      ensures Valid() && hand == old(hand) && p in old(streams)
      ensures Mem() == Fed(old(Mem()), p, bytes) && packets == Found(old(Mem()), p, bytes)
    {
      hide Consistent, BufferPool.Valid, AllData, Tokenizer.Put;
      var t := streams[p].Put(bytes, VOICE_DATA_SIZE);
      streams := streams[p := t.(packets := [])];
      assert Places() == at[Free := pool.bufferQueue][Hand := hand][Lost := lost];
      return t.packets;
    }

    /** VoiceDataList.reset */
    method ResetVoice(s: int)
      requires Valid() && s in sessions
      modifies this, pool, pool.semaphores
      ensures Valid() && hand == old(hand) && Mem() == Cleared(old(Mem()), s)
    {
      hide Consistent, BufferPool.Valid, AllData;
      Flush(VoiceList(s));
      offered := offered[s := {}];
      assert Places() == at[Free := pool.bufferQueue][Hand := hand][Lost := lost];
    }

    /** Session.putVoiceBuffer and its caller: list the packet in hand, or give it back; an evicted one goes back too. */
    method PutVoiceBuffer(s: int, b: DataBuffer)
      requires Valid() && hand == [b] && s in sessions
      modifies this, pool, pool.semaphores
      ensures Idle() && Mem() == Listed(old(Mem()), s, b)
    {
      hide Consistent, BufferPool.Valid, GetInt, VoiceServer.Places;
      ghost var m := Mem();
      if SeqOf(b) in offered[s] {
        Release(b);
        assert Mem().at == Listed(m, s, b).at && Mem().offered == Listed(m, s, b).offered;
        return;
      }
      assert [b][0] == b;
      Enqueue(b, VoiceList(s));
      See(s, SeqOf(b));
      if |at[VoiceList(s)]| > VOICE_BUFFER_QUEUE_SIZE {
        GiveFront(VoiceList(s));
      }
    }

    /** A sequence number is marked as offered. */
    method See(s: int, number: int)
      requires Idle() && s in sessions
      modifies this, pool, pool.semaphores
      ensures Idle() && Mem() == old(Mem()).(offered := old(offered)[s := old(offered)[s] + {number}])
    {
      hide Consistent, BufferPool.Valid, AllData;
      offered := offered[s := offered[s] + {number}];
      assert Places() == at[Free := pool.bufferQueue][Hand := hand][Lost := lost];
    }

    /** Where a relay loop stands: the next packet, if any, is in hand. */
    ghost predicate Taking(q: seq<Buffer>, count: nat, p: Place, b: Option<Buffer>, m: Memory)
      reads this, pool, pool.semaphores
    {
      && Valid() && p in at && count <= |q|
      && Mem() == TakenTo(m, p, q, count)
      && hand == (if b.Some? then [b.value] else [])
      && b == (if |q| > count then Some(q[count]) else None)
    }

    method TakeFirst(p: Place) returns (b: Option<Buffer>)
      requires Idle() && p in at
      modifies this, pool, pool.semaphores
      ensures Taking(old(at)[p], 0, p, b, old(Mem()))
    {
      hide Consistent, BufferPool.Valid, AllData, VoiceServer.Places, Ready;
      TakenFirst(Mem(), p);
      b := Dequeue(p);
    }

    method TakeNext(b: Buffer, p: Place, ghost q: seq<Buffer>, ghost count: nat, ghost m: Memory)
      returns (next: Option<Buffer>)
      requires Taking(q, count, p, Some(b), m)
      modifies this, pool, pool.semaphores
      ensures Taking(q, count + 1, p, next, m)
    {
      hide Consistent, BufferPool.Valid, AllData, VoiceServer.Places, Ready;
      TakenNext(m, p, q, count);
      Release(b);
      next := Dequeue(p);
    }

    lemma Standing(q: seq<Buffer>, count: nat, p: Place, b: Option<Buffer>, m: Memory)
      requires Taking(q, count, p, b, m)
      ensures Valid() && count <= |q| && hand == (if b.Some? then [b.value] else [])
      ensures b == (if |q| > count then Some(q[count]) else None) && Mem() == TakenTo(m, p, q, count)
    {
    }

    lemma Pointing(q: seq<Buffer>, count: nat, p: Place, b: Option<Buffer>, m: Memory)
      requires Taking(q, count, p, b, m)
      ensures count <= |q| && b == if |q| > count then Some(q[count]) else None
    {
    }

    /** Appends the marker to a packet, in the room its buffer has left, and writes it after what was written. */
    method WriteOut(sent: seq<seq<byte>>, packet: seq<byte>, ghost q: seq<Buffer>, ghost k: nat)
      returns (written: seq<seq<byte>>)
      requires k < |q| && packet == q[k].bytes && IsRelayed(sent, q, k)
      ensures IsRelayed(written, q, k + 1)
    {
      hide Relayed;
      RelayedNext(q, k);
      if |packet| + 8 < VOICE_DATA_SIZE {
        return sent + [packet + MARKER];
      }
      return sent;
    }

    /**
      The TCP relay loop: up to ten packets of the peer are written out, each with its marker if there is room
      for it; a further one that was already taken goes back to the pool unsent.
     */
    method RelayTcp(p: int) returns (sent: seq<seq<byte>>)
      requires Idle() && p in sessions
      modifies this, pool, pool.semaphores
      ensures Idle() && Mem() == Polled(old(Mem()), p, RELAY_LIMIT + 1)
      ensures var q := old(at)[VoiceList(p)]; sent == Relayed(q[..AtMost(|q|, RELAY_LIMIT)])
    {
      HasList(p);
      ghost var m, q := Mem(), at[VoiceList(p)];
      hide Relayed, IsRelayed, Polled, VoiceServer.Taking, VoiceServer.Valid, Ready;
      var first := TakeFirst(VoiceList(p));
      var b: Option<Buffer>;
      ghost var count: nat;
      sent, b, count := RelayTen(VoiceList(p), first, q, m);
      FinishRelay(p, sent, b, count, q, m);
    }

    /** The loop itself: it ends with the next packet, if there is one, in hand. */
    method RelayTen(p: Place, first: Option<Buffer>, ghost q: seq<Buffer>, ghost m: Memory)
      returns (sent: seq<seq<byte>>, b: Option<Buffer>, count: nat)
      requires Taking(q, 0, p, first, m)
      modifies this, pool, pool.semaphores
      ensures Taking(q, count, p, b, m) && IsRelayed(sent, q, count)
      ensures count <= RELAY_LIMIT && !(b.Some? && count < RELAY_LIMIT)
    {
      hide Relayed, IsRelayed, VoiceServer.Taking;
      sent, b, count := [], first, 0;
      RelayedNothing(q);
      Pointing(q, 0, p, b, m);
      while b.Some? && count < RELAY_LIMIT
        invariant Taking(q, count, p, b, m) && IsRelayed(sent, q, count)
        invariant count <= RELAY_LIMIT && count <= |q| && b == if |q| > count then Some(q[count]) else None
        decreases RELAY_LIMIT - count
      {
        sent := WriteOut(sent, b.value.bytes, q, count);
        b := TakeNext(b.value, p, q, count, m);
        count := count + 1;
        Pointing(q, count, p, b, m);
      }
    }

    lemma HasList(p: int)
      requires Valid() && p in sessions
      ensures VoiceList(p) in at
    {
    }

    /** The packet still in hand, if any, goes back. */
    method FinishRelay(p: int, ghost sent: seq<seq<byte>>, b: Option<Buffer>, ghost count: nat, ghost q: seq<Buffer>, ghost m: Memory)
      requires Taking(q, count, VoiceList(p), b, m) && IsRelayed(sent, q, count)
      requires VoiceList(p) in m.at && q == m.at[VoiceList(p)]
      requires count <= RELAY_LIMIT && !(b.Some? && count < RELAY_LIMIT)
      modifies this, pool, pool.semaphores
      ensures Idle() && Mem() == Polled(m, p, RELAY_LIMIT + 1) && sent == Relayed(q[..AtMost(|q|, RELAY_LIMIT)])
    {
      hide Consistent, BufferPool.Valid, AllData, Relayed, VoiceServer.Places, Ready;
      TakenEnd(m, p, count);
      if b.Some? {
        Release(b.value);
      }
    }

    /** The UDP relay loop sends everything the peer has. */
    method RelayUdp(p: int) returns (sent: seq<seq<byte>>)
      requires Idle() && p in sessions
      modifies this, pool, pool.semaphores
      ensures Idle() && Mem() == Emptied(old(Mem()), VoiceList(p))
      ensures sent == BytesOf(old(at)[VoiceList(p)])
    {
      ghost var m, q, count: nat := Mem(), at[VoiceList(p)], 0;
      hide BytesOf, VoiceServer.Taking, Emptied;
      BytesOfNext(q, 0);
      sent := [];
      var b := TakeFirst(VoiceList(p));
      Pointing(q, 0, VoiceList(p), b, m);
      while b.Some?
        invariant Taking(q, count, VoiceList(p), b, m)
        invariant count <= |q| && b == if |q| > count then Some(q[count]) else None
        invariant sent == BytesOf(q[..count])
        decreases |q| - count
      {
        BytesOfNext(q, count);
        sent := sent + [b.value.bytes];
        b := TakeNext(b.value, VoiceList(p), q, count, m);
        count := count + 1;
        Pointing(q, count, VoiceList(p), b, m);
      }
      Standing(q, count, VoiceList(p), b, m);
      TakenAll(m, VoiceList(p));
      assert q[..count] == q;
    }

    /** A voice packet in hand: list it, then relay what the peer of its session has. */
    method HandleData(s: int, b: DataBuffer, registry: Registry) returns (sent: seq<seq<byte>>)
      requires Valid() && hand == [b] && s in sessions && registry.Within(sessions)
      modifies this, pool, pool.semaphores
      ensures Idle() && End(Good, Mem(), sent) == TcpData(old(Mem()), b, s, registry, sessions)
    {
      hide Consistent, BufferPool.Valid, AllData, VoiceServer.Places, Listed, Polled, Relayed;
      PutVoiceBuffer(s, b);
      if s !in registry.peers {
        return [];
      }
      sent := RelayTcp(registry.peers[s]);
    }

    /** The packet loop of VoiceTcpManager.read. */
    method HandlePackets(p: Place, registry: Registry) returns (code: Code, sent: seq<seq<byte>>)
      requires Idle() && p in at && p.VoiceTokens? && registry.Within(sessions)
      modifies this, pool, pool.semaphores
      ensures Idle() && End(code, Mem(), sent) == TcpRun(old(Mem()), p, [], registry, sessions)
    {
      ghost var m, now := Mem(), Mem();
      hide Consistent, BufferPool.Valid, AllData, VoiceServer.Places, TcpVerdict, TcpData, Popped, Freed, Dropped, Ready, TcpRun;
      sent := [];
      StaysThere(now, p, sessions);
      var b := Dequeue(p);
      while b.Some?
        invariant Valid() && hand == (if b.Some? then [b.value] else []) && p in at && p in now.at && Ready(now, sessions)
        invariant if b.Some? then now.at[p] != [] && b.value == now.at[p][0] && Mem() == Popped(now, p)
                  else now.at[p] == [] && Mem() == now
        invariant TcpRun(m, p, [], registry, sessions) == TcpRun(now, p, sent, registry, sessions)
        decreases |now.at[p]|
      {
        var packet := b.value.bytes;
        TcpRunStep(now, p, sent, registry, sessions);
        match TcpVerdict(packet, registry) {
          case Throws =>
            Lose(b.value);
            return Thrown, sent;
          case Drop(c) =>
            Release(b.value);
            return c, sent;
          case Data(s) =>
            var frames := HandleData(s, b.value, registry);
            sent := sent + frames;
          case _ =>
            Release(b.value);
        }
        now := Mem();
        StaysThere(now, p, sessions);
        b := Dequeue(p);
      }
      TcpRunEnd(now, p, sent, registry, sessions);
      return Good, sent;
    }

    /**
      VoiceTcpManager.read on a channel: the buffer read into is given back once the tokenizer has its bytes.
      An empty pool, and a tokenizer that finds it empty, throw.
     */
    method ReadTcp(channel: int, input: Option<seq<byte>>, registry: Registry) returns (code: Code, sent: seq<seq<byte>>)
      requires Idle() && registry.Within(sessions)
      modifies this, pool, pool.semaphores
      ensures Idle() && End(code, Mem(), sent) == TcpRead(old(Mem()), VoiceTokens(channel), input, registry, sessions)
    {
      hide Consistent, BufferPool.Valid, AllData, VoiceServer.Places, TcpRun, Emitted, Tokenizer.Put;
      var bytes := if input.Some? then input.value else [];
      var b := Allocate(bytes);
      if b.None? {
        return Thrown, [];
      }
      if bytes == [] {
        Release(b.value);
        return Error, [];
      }
      if VoiceTokens(channel) !in at {
        Release(b.value);
        return Severe, [];
      }
      code, sent := ReadChannel(VoiceTokens(channel), b.value, registry);
    }

    /** The bytes in hand go to a channel that there is. */
    method ReadChannel(p: Place, b: Buffer, registry: Registry) returns (code: Code, sent: seq<seq<byte>>)
      requires Valid() && hand == [b] && p in at && p.VoiceTokens? && registry.Within(sessions)
      modifies this, pool, pool.semaphores
      ensures Idle() && p in old(streams)
      ensures var m := old(Mem());
              && (Refuses(m, p, b.bytes) ==> code == Error && sent == [] && Mem() == Freed(Fed(m, p, b.bytes), b))
              && (!Refuses(m, p, b.bytes) && |Found(m, p, b.bytes)| > |m.free| ==>
                    code == Thrown && sent == [] && Mem() == Dropped(Tokenized(m, p, b.bytes), b))
              && (!Refuses(m, p, b.bytes) && |Found(m, p, b.bytes)| <= |m.free| ==>
                    var t := Freed(Tokenized(m, p, b.bytes), b);
                    Ready(t, sessions) && p in t.at && End(code, Mem(), sent) == TcpRun(t, p, [], registry, sessions))
    {
      hide Consistent, BufferPool.Valid, AllData, VoiceServer.Places, TcpRun, Emitted, Found, Fed;
      ghost var m := Mem();
      var full := b.bytes != [] && |streams[p].held| >= STORE_SIZE;
      FedKeeps(m, p, b.bytes);
      var packets := Feed(p, b.bytes);
      if full {
        Release(b);
        return Error, [];
      }
      StillThere(Mem(), p, packets, b);
      var ok := EmitAll(p, packets);
      if !ok {
        Lose(b);
        return Thrown, [];
      }
      Release(b);
      IsReady();
      code, sent := HandlePackets(p, registry);
    }

    /** VoiceUdpManager.read */
    method ReadUdp(datagram: Option<seq<byte>>, registry: Registry) returns (code: Code, sent: seq<seq<byte>>)
      requires Idle() && registry.Within(sessions)
      modifies this, pool, pool.semaphores
      ensures Idle() && End(code, Mem(), sent) == UdpRead(old(Mem()), datagram, registry, sessions)
    {
      hide Consistent, BufferPool.Valid, AllData, VoiceServer.Places, BytesOf, Listed, Emptied, LengthOk, Addressed;
      var b := Allocate(if datagram.Some? then datagram.value else []);
      if b.None? {
        return Thrown, [];
      }
      if datagram.None? || datagram.value == [] {
        Release(b.value);
        return Good, [];
      }
      match UdpVerdict(b.value.bytes, registry) {
        case Throws =>
          Lose(b.value);
          return Thrown, [];
        case Data(s) =>
          DataReadable(b.value.bytes, registry, sessions);
          sent := HandleDatagram(s, b.value, registry);
          return Good, sent;
        case Unknown =>
          Lose(b.value);
          return Good, [];
        case _ =>
          Release(b.value);
          return Good, [];
      }
    }

    method HandleDatagram(s: int, b: DataBuffer, registry: Registry) returns (sent: seq<seq<byte>>)
      requires Valid() && hand == [b] && s in sessions && registry.Within(sessions)
      modifies this, pool, pool.semaphores
      ensures Idle()
      ensures var listed := Listed(old(Mem()), s, b);
              if s in registry.peers
              then var q := VoiceList(registry.peers[s]); Mem() == Emptied(listed, q) && sent == BytesOf(listed.at[q])
              else Mem() == listed && sent == []
    {
      hide Consistent, BufferPool.Valid, AllData, VoiceServer.Places, BytesOf, Listed, Emptied;
      PutVoiceBuffer(s, b);
      if s !in registry.peers {
        return [];
      }
      sent := RelayUdp(registry.peers[s]);
    }

    /** The read of a session's socket in SessionManager; an empty pool only means that nothing is read. */
    method ReadSocket(bytes: seq<byte>, session: Option<int>)
      requires Idle() && (session.Some? ==> session.value in sessions)
      modifies this, pool, pool.semaphores
      ensures Idle() && Mem() == SelectorRead(old(Mem()), bytes, session, sessions)
    {
      hide Consistent, BufferPool.Valid, AllData, VoiceServer.Places;
      var b := Allocate(bytes);
      if b.None? {
        return;
      }
      if bytes == [] || session.None? {
        Release(b.value);
      } else {
        Enqueue(b.value, Input(session.value));
      }
    }

    /** Session.OnClose: tokens, voice list and input go back to the pool; whom it was calling is called off. */
    method OnClose(s: int, peer: Option<int>)
      requires Valid() && s in sessions && (peer.Some? ==> peer.value in sessions)
      modifies this, pool, pool.semaphores
      ensures Valid() && hand == old(hand) && Mem() == Closed(old(Mem()), s, peer, sessions)
    {
      hide Consistent, BufferPool.Valid, AllData, VoiceServer.Places;
      FlushTokens(SessionTokens(s));
      ResetVoice(s);
      Flush(Input(s));
      if peer.Some? {
        ResetVoice(peer.value);
      }
    }

    /** What the operations of a message do, one after the other; a packet may be in hand. */
    method Apply(effects: seq<Effect>)
      requires Valid() && AllWithin(effects, sessions)
      modifies this, pool, pool.semaphores
      ensures Valid() && hand == old(hand) && Mem() == AllAffected(old(Mem()), effects, sessions)
    {
      hide Consistent, BufferPool.Valid, AllData, VoiceServer.Places, Cleared, Closed, Ready;
      ghost var m := Mem();
      IsReady();
      for i := 0 to |effects|
        invariant Valid() && hand == old(hand) && Ready(Mem(), sessions)
        invariant AllAffected(m, effects, sessions) == AllAffected(Mem(), effects[i..], sessions)
      {
        assert effects[i..][0] == effects[i] && effects[i..][1..] == effects[i + 1..];
        assert effects[i].Within(sessions);
        match effects[i] {
          case ResetVoice(s) => ResetVoice(s);
          case CloseSession(s, peer) => OnClose(s, peer);
        }
        IsReady();
      }
    }

    lemma IsReady()
      requires Valid()
      ensures Ready(Mem(), sessions)
    {
    }

    /** The packet loop of SessionHandler.read. */
    method HandleMessages(s: int, hasCipher: bool, handlings: seq<Handling>) returns (code: Code)
      requires Idle() && s in sessions && AllHandlingsWithin(handlings, sessions) && |at[SessionTokens(s)]| <= |handlings|
      modifies this, pool, pool.semaphores
      ensures Idle() && End(code, Mem(), []) == SessionRun(old(Mem()), s, hasCipher, handlings, sessions)
    {
      var p := SessionTokens(s);
      ghost var m, now := Mem(), Mem();
      hide Consistent, BufferPool.Valid, AllData, VoiceServer.Places, AllAffected, AllHandlingsWithin, AllWithin, FateOf;
      hide Popped, Freed, Dropped, Ready, SessionRun;
      IsReady();
      StaysThere(now, p, sessions);
      var i := 0;
      var b := Dequeue(p);
      while b.Some?
        invariant Valid() && hand == (if b.Some? then [b.value] else []) && p in at && p in now.at && Ready(now, sessions)
        invariant if b.Some? then now.at[p] != [] && b.value == now.at[p][0] && Mem() == Popped(now, p)
                  else now.at[p] == [] && Mem() == now
        invariant i <= |handlings| && |now.at[p]| <= |handlings| - i && AllHandlingsWithin(handlings[i..], sessions)
        invariant SessionRun(m, s, hasCipher, handlings, sessions) == SessionRun(now, s, hasCipher, handlings[i..], sessions)
        decreases |handlings| - i
      {
        SessionRunStep(now, s, hasCipher, handlings[i..], sessions);
        match FateOf(b.value.bytes, hasCipher, handlings[i]) {
          case NoCipher =>
            Lose(b.value);
            return Severe;
          case Undecipherable =>
            Release(b.value);
            return Severe;
          case Fails =>
            Lose(b.value);
            return Thrown;
          case Message(effects) =>
            Apply(effects);
            Release(b.value);
        }
        i := i + 1;
        now := Mem();
        StaysThere(now, p, sessions);
        IsReady();
        b := Dequeue(p);
      }
      SessionRunEnd(now, s, hasCipher, handlings[i..], sessions);
      return Good;
    }

    /** SessionHandler.read */
    method ReadSession(s: int, hasCipher: bool, handlings: seq<Handling>) returns (code: Code)
      requires Idle() && s in sessions && AllHandlingsWithin(handlings, sessions)
      requires at[Input(s)] != [] ==> |PacketsAfter(Mem(), s)| <= |handlings|
      modifies this, pool, pool.semaphores
      ensures Idle() && End(code, Mem(), []) == SessionRead(old(Mem()), s, hasCipher, handlings, sessions)
    {
      hide Consistent, BufferPool.Valid, AllData, VoiceServer.Places, SessionRun, AllHandlingsWithin, Emitted, Tokenizer.Put;
      ghost var m := Mem();
      var p := SessionTokens(s);
      var b := Dequeue(Input(s));
      if b.None? {
        return Error;
      }
      var full := b.value.bytes != [] && |streams[p].held| >= STORE_SIZE;
      ghost var taken := Mem();
      PacketsAfterIs(m, s, b.value);
      var packets := Feed(p, b.value.bytes);
      if full {
        Release(b.value);
        return Severe;
      }
      EmittedLength(Mem(), p, packets);
      var ok := EmitAll(p, packets);
      if !ok {
        Lose(b.value);
        return Thrown;
      }
      Release(b.value);
      CheckedWithin(at[p], handlings, sessions);
      code := HandleMessages(s, hasCipher, Checked(at[p], handlings));
    }

    /** VoiceTcpManager.accept: a new channel with an empty tokenizer. */
    method Accept(channel: int)
      requires Idle() && VoiceTokens(channel) !in at
      modifies this, pool, pool.semaphores
      ensures Idle()
      ensures Mem() == Opened(old(Mem()), VoiceTokens(channel))
    {
      hide Consistent, BufferPool.Valid, AllData;
      EmptyPlaceConsistent(Places(), owner, pool.semaphores.Length, VoiceTokens(channel));
      at := at[VoiceTokens(channel) := []];
      streams := streams[VoiceTokens(channel) := NEW_STREAM];
      assert Places() == old(Places())[VoiceTokens(channel) := []];
    }

    /** VoiceTcpManager.close: the channel's packets go back to the pool and its tokenizer is gone. */
    method Close(channel: int)
      requires Idle() && VoiceTokens(channel) in at
      modifies this, pool, pool.semaphores
      ensures Idle()
      ensures Mem() == Shut(old(Mem()), VoiceTokens(channel))
    {
      hide Consistent, BufferPool.Valid, AllData, Ready, Shut, Flushed;
      ghost var m := Mem();
      FlushTokens(VoiceTokens(channel));
      FlushedIsShut(m, VoiceTokens(channel));
      ChannelsReady(m, VoiceTokens(channel), sessions);
      EmptyPlaceConsistent(Places(), owner, pool.semaphores.Length, VoiceTokens(channel));
      PlacesWithout(at, pool.bufferQueue, hand, lost, VoiceTokens(channel));
      at := at - {VoiceTokens(channel)};
      streams := streams - {VoiceTokens(channel)};
    }
  }

  lemma PlacesWithout(at: Queues, free: seq<Buffer>, hand: seq<Buffer>, lost: seq<Buffer>, c: Place)
    requires c.VoiceTokens?
    ensures (at - {c})[Free := free][Hand := hand][Lost := lost] == at[Free := free][Hand := hand][Lost := lost] - {c}
  {
  }

  lemma FlushedIsShut(m: Memory, c: Place)
    requires c in m.at
    ensures var f := Flushed(m, c);
            c in f.at && f.at[c] == [] && f.(at := f.at - {c}, streams := f.streams - {c}) == Shut(m, c)
  {
  }

  function EmptyPlaces(sessions: set<int>): Queues {
    NoTokens(sessions) + NoInputs(sessions) + NoVoice(sessions)
  }

  lemma PlacesThere(sessions: set<int>, s: int)
    requires s in sessions
    ensures var m := EmptyPlaces(sessions); SessionTokens(s) in m && Input(s) in m && VoiceList(s) in m
  {
    hide NoTokens, NoInputs, NoVoice;
  }

  lemma PlacesEmpty(sessions: set<int>, p: Place)
    requires p in EmptyPlaces(sessions)
    ensures EmptyPlaces(sessions)[p] == [] && (p.SessionTokens? || p.Input? || p.VoiceList?) && (p.SessionTokens? ==> p.session in sessions)
  {
    hide NoTokens, NoInputs, NoVoice;
  }

  function NoTokens(sessions: set<int>): (m: Queues)
    ensures forall s :: s in sessions ==> SessionTokens(s) in m
    ensures forall p :: p in m ==> m[p] == [] && p.SessionTokens? && p.session in sessions
  {
    map s | s in sessions :: SessionTokens(s) := []
  }

  function NoInputs(sessions: set<int>): (m: Queues)
    ensures forall s :: s in sessions ==> Input(s) in m
    ensures forall p :: p in m ==> m[p] == [] && p.Input?
  {
    map s | s in sessions :: Input(s) := []
  }

  function NoVoice(sessions: set<int>): (m: Queues)
    ensures forall s :: s in sessions ==> VoiceList(s) in m
    ensures forall p :: p in m ==> m[p] == [] && p.VoiceList?
  {
    map s | s in sessions :: VoiceList(s) := []
  }

  lemma StartReady(m: Memory, sessions: set<int>)
    requires m.at == EmptyPlaces(sessions) && m.streams == NoStreams(sessions) && forall s :: s in sessions ==> s in m.offered
    ensures Ready(m, sessions) && forall p :: p in m.at ==> m.at[p] == []
  {
    hide EmptyPlaces, NoStreams;
    forall s | s in sessions
      ensures SessionTokens(s) in m.at && Input(s) in m.at && VoiceList(s) in m.at
    {
      PlacesThere(sessions, s);
    }
    forall p | p in m.at
      ensures m.at[p] == [] && (p.SessionTokens? || p.Input? || p.VoiceList?) && (p.SessionTokens? ==> p.session in sessions)
    {
      PlacesEmpty(sessions, p);
    }
  }

  function NoStreams(sessions: set<int>): (m: map<Place, Tokenizer>)
    ensures forall s :: s in sessions ==> SessionTokens(s) in m
    ensures forall p :: p in m ==> m[p] == NEW_STREAM
  {
    map s | s in sessions :: SessionTokens(s) := NEW_STREAM
  }

  function AllOwned(n: nat): (owner: map<nat, Place>)
    ensures forall k: nat :: k < n ==> k in owner && owner[k] == Free
  {
    if n == 0 then map[] else AllOwned(n - 1)[n - 1 := Free]
  }

  lemma AllFree(at: Queues, owner: map<nat, Place>, n: nat)
    requires Free in at && |at[Free]| == n && (forall i :: 0 <= i < n ==> at[Free][i].key == i)
    requires forall p :: p in at && p != Free ==> at[p] == []
    requires forall k: nat :: k < n ==> k in owner && owner[k] == Free
    ensures Consistent(at, owner, n)
  {
    forall k: nat | k < n
      ensures Holds(at[owner[k]], k)
    {
      assert at[Free][k].key == k;
    }
  }

  lemma NotFree(at: Queues, owner: map<nat, Place>, n: nat, p: Place, b: Buffer)
    requires Consistent(at, owner, n) && p in at && Free in at && p != Free && at[p] != [] && at[p][0] == b
    ensures b.key < n && !Holds(at[Free], b.key)
  {
    assert OwnedBy(at[p], owner, p, n) && OwnedBy(at[Free], owner, Free, n);
  }

  lemma EmittedFits(m: Memory, p: Place, packets: seq<seq<byte>>)
    requires p in m.at && |packets| <= |m.free|
    ensures Emitted(m, p, packets) == m.(at := m.at[p := m.at[p] + Filled(m.free, packets)], free := m.free[|packets|..])
  {
    assert packets[..|packets|] == packets;
  }

  lemma EmittedNothing(m: Memory, p: Place, packets: seq<seq<byte>>)
    requires p in m.at
    ensures Emitted(m, p, packets[..0]) == m
  {
    hide Emitted;
    EmittedFits(m, p, packets[..0]);
    assert m.at[p] + Filled(m.free, packets[..0]) == m.at[p];
    assert m.free[0..] == m.free;
  }

  lemma EmittedNext(m: Memory, p: Place, packets: seq<seq<byte>>, i: nat)
    requires p in m.at && i < |packets| && i <= |m.free|
    ensures var before := Emitted(m, p, packets[..i]);
            && before.free == m.free[i..] && p in before.at && p in Emitted(m, p, packets[..i + 1]).at
            && (i < |m.free| ==> Emitted(m, p, packets[..i + 1])
                                 == Appended(before, p, [Buffer(before.free[0].key, packets[i])]).(free := before.free[1..]))
            && (i == |m.free| ==> Emitted(m, p, packets) == before)
  {
    EmittedFits(m, p, packets[..i]);
    if i < |m.free| {
      EmittedFits(m, p, packets[..i + 1]);
      var next := Buffer(m.free[i].key, packets[i]);
      assert Filled(m.free, packets[..i + 1]) == Filled(m.free, packets[..i]) + [next];
      assert m.at[p] + (Filled(m.free, packets[..i]) + [next]) == m.at[p] + Filled(m.free, packets[..i]) + [next];
    }
  }

  lemma EmptiedStep(m: Memory, p: Place)
    requires p in m.at
    ensures m.at[p] != [] ==> Emptied(Freed(Popped(m, p), m.at[p][0]), p) == Emptied(m, p)
    ensures m.at[p] == [] ==> Emptied(m, p) == m
  {
    if m.at[p] != [] {
      var q := m.at[p];
      assert m.free + q == m.free + [q[0]] + q[1..];
    } else {
      assert m.at[p := []] == m.at && m.free + [] == m.free;
    }
  }

  lemma TakenFirst(m: Memory, p: Place)
    requires p in m.at
    ensures var q := m.at[p]; TakenTo(m, p, q, 0) == if q == [] then m else Popped(m, p)
  {
    var q := m.at[p];
    assert m.free + q[..0] == m.free;
    if q == [] {
      assert m.at[p := []] == m.at;
    }
  }

  lemma TakenNext(m: Memory, p: Place, q: seq<Buffer>, count: nat)
    requires count < |q|
    ensures var f := Freed(TakenTo(m, p, q, count), q[count]);
            && p in f.at && (f.at[p] == [] <==> count + 1 == |q|)
            && TakenTo(m, p, q, count + 1) == (if count + 1 == |q| then f else Popped(f, p))
            && (count + 1 < |q| ==> f.at[p][0] == q[count + 1])
  {
    TakenOne(q, count + 1);
    assert m.free + q[..count + 1] == m.free + q[..count] + [q[count]];
  }

  lemma TakenAll(m: Memory, p: Place)
    requires p in m.at
    ensures TakenTo(m, p, m.at[p], |m.at[p]|) == Emptied(m, p)
  {
    var q := m.at[p];
    assert q[..|q|] == q && q[|q|..] == [];
  }

  lemma TakenEnd(m: Memory, p: int, count: nat)
    requires VoiceList(p) in m.at && count <= RELAY_LIMIT
    requires count == |m.at[VoiceList(p)]| || count == RELAY_LIMIT < |m.at[VoiceList(p)]|
    ensures var q := m.at[VoiceList(p)];
            var t := TakenTo(m, VoiceList(p), q, count);
            && Polled(m, p, RELAY_LIMIT + 1) == (if |q| > count then Freed(t, q[count]) else t)
            && count == AtMost(|q|, RELAY_LIMIT)
  {
    var q := m.at[VoiceList(p)];
    if |q| > count {
      assert m.free + q[..count + 1] == m.free + q[..count] + [q[count]];
    }
  }

  lemma StaysThere(m: Memory, p: Place, sessions: set<int>)
    requires p in m.at
    ensures m.at[p] != [] ==> p in Popped(m, p).at
  {
  }

  lemma TcpRunEnd(m: Memory, p: Place, sent: seq<seq<byte>>, r: Registry, sessions: set<int>)
    requires Ready(m, sessions) && r.Within(sessions) && p in m.at && p.VoiceTokens? && m.at[p] == []
    ensures TcpRun(m, p, sent, r, sessions) == End(Good, m, sent)
  {
  }

  lemma TcpRunStep(m: Memory, p: Place, sent: seq<seq<byte>>, r: Registry, sessions: set<int>)
    requires Ready(m, sessions) && r.Within(sessions) && p in m.at && p.VoiceTokens? && m.at[p] != []
    ensures var b, rest, e := m.at[p][0], Popped(m, p), TcpRun(m, p, sent, r, sessions);
            && Ready(rest, sessions) && p in Freed(rest, b).at && Ready(Freed(rest, b), sessions)
            && |Freed(rest, b).at[p]| < |m.at[p]|
            && var v := TcpVerdict(b.bytes, r);
            && (v.Throws? ==> e == End(Thrown, Dropped(rest, b), sent))
            && (v.Drop? ==> e == End(v.code, Freed(rest, b), sent))
            && (v.Addresses? || v.Unknown? ==> e == TcpRun(Freed(rest, b), p, sent, r, sessions))
            && (v.Data? ==>
                  && |b.bytes| >= SEQ_INDEX + 4 && v.session in sessions
                  && var d := TcpData(rest, b, v.session, r, sessions);
                  && p in d.memory.at && |d.memory.at[p]| < |m.at[p]|
                  && e == TcpRun(d.memory, p, sent + d.sent, r, sessions))
  {
    hide Ready, TcpVerdict, TcpData;
    ReadyPopped(m, p, m.at[p][0], sessions);
    if TcpVerdict(m.at[p][0].bytes, r).Data? {
      TcpDataReadable(m.at[p][0].bytes, r, sessions);
    }
  }

  lemma StillThere(m: Memory, p: Place, packets: seq<seq<byte>>, b: Buffer)
    requires p in m.at
    ensures p in Emitted(m, p, packets).at && p in Freed(Emitted(m, p, packets), b).at
  {
  }

  lemma EmittedLength(m: Memory, p: Place, packets: seq<seq<byte>>)
    requires p in m.at
    ensures p in Emitted(m, p, packets).at
    ensures |packets| <= |m.free| ==> |Emitted(m, p, packets).at[p]| == |m.at[p]| + |packets|
  {
  }

  lemma FedKeeps(m: Memory, p: Place, bytes: seq<byte>)
    requires p in m.at && p in m.streams
    ensures Fed(m, p, bytes).at == m.at && Fed(m, p, bytes).free == m.free
  {
  }

  lemma PacketsAfterIs(m: Memory, s: int, b: Buffer)
    requires SessionTokens(s) in m.at && SessionTokens(s) in m.streams && Input(s) in m.at && m.at[Input(s)] != [] && b == m.at[Input(s)][0]
    ensures var p, taken := SessionTokens(s), Popped(m, Input(s));
            && Found(m, p, b.bytes) == Found(taken, p, b.bytes) && taken.free == m.free && taken.streams == m.streams && taken.at[p] == m.at[p]
            && Tokenized(taken, p, b.bytes).at[p] == PacketsAfter(m, s)
  {
    hide Tokenizer.Put;
  }

  lemma SessionRunEnd(m: Memory, s: int, hasCipher: bool, handlings: seq<Handling>, sessions: set<int>)
    requires Ready(m, sessions) && s in sessions && AllHandlingsWithin(handlings, sessions) && m.at[SessionTokens(s)] == []
    ensures SessionRun(m, s, hasCipher, handlings, sessions) == End(Good, m, [])
  {
  }

  lemma SessionRunStep(m: Memory, s: int, hasCipher: bool, handlings: seq<Handling>, sessions: set<int>)
    requires Ready(m, sessions) && s in sessions && AllHandlingsWithin(handlings, sessions)
    requires 0 < |m.at[SessionTokens(s)]| <= |handlings|
    ensures var p := SessionTokens(s);
            var b, rest, e := m.at[p][0], Popped(m, p), SessionRun(m, s, hasCipher, handlings, sessions);
            var f := FateOf(b.bytes, hasCipher, handlings[0]);
            && Ready(rest, sessions) && p in Freed(rest, b).at && Ready(Freed(rest, b), sessions)
            && AllHandlingsWithin(handlings[1..], sessions)
            && (f.NoCipher? ==> e == End(Severe, Dropped(rest, b), []))
            && (f.Undecipherable? ==> e == End(Severe, Freed(rest, b), []))
            && (f.Fails? ==> e == End(Thrown, Dropped(rest, b), []))
            && (f.Message? ==>
                  && AllWithin(f.effects, sessions)
                  && var next := Freed(AllAffected(rest, f.effects, sessions), b);
                  && Ready(next, sessions) && p in next.at && |next.at[p]| <= |handlings| - 1
                  && e == SessionRun(next, s, hasCipher, handlings[1..], sessions))
  {
    hide AllData, AllAffected, AllWithin, AllHandlingsWithin, FateOf;
    var p := SessionTokens(s);
    var b, rest := m.at[p][0], Popped(m, p);
    SessionPopped(m, s, sessions);
    SessionFreed(rest, b, sessions);
    HandlingsRest(handlings, sessions);
    if FateOf(b.bytes, hasCipher, handlings[0]).Message? {
      MessageWithin(b.bytes, hasCipher, handlings, sessions);
      SessionFreed(AllAffected(rest, FateOf(b.bytes, hasCipher, handlings[0]).effects, sessions), b, sessions);
    }
  }

  lemma HandlingsRest(handlings: seq<Handling>, sessions: set<int>)
    requires handlings != [] && AllHandlingsWithin(handlings, sessions)
    ensures AllHandlingsWithin(handlings[1..], sessions)
  {
  }
}
