/**
  server/main/BufferPool.java: a queue of free buffers and, per key, a count of how often it is out.
 */
module BufferPools {
  import opened Options
  import opened Ownership

  class BufferPool {
    var bufferQueue: seq<Buffer>
    const semaphores: array<int>

    /** A buffer is out at most once, and it is in the queue exactly when it is not out. */
    ghost predicate Valid()
      reads this, semaphores
    {
      && Distinct(bufferQueue)
      && (forall i :: 0 <= i < |bufferQueue| ==> bufferQueue[i].key < semaphores.Length)
      && (forall k: nat :: k < semaphores.Length ==> semaphores[k] == if Holds(bufferQueue, k) then 0 else 1)
    }

    constructor (size: nat)
      ensures Valid() && fresh(semaphores) && semaphores.Length == size && |bufferQueue| == size
      ensures forall i :: 0 <= i < size ==> bufferQueue[i].key == i
    {
      semaphores := new int[size];
      bufferQueue := [];
      new;
      for i := 0 to size
        invariant |bufferQueue| == i && forall j :: 0 <= j < i ==> bufferQueue[j].key == j && semaphores[j] == 0
      {
        bufferQueue := bufferQueue + [Buffer(i, [])];
        semaphores[i] := 0;
      }
      forall k: nat | k < size
        ensures Holds(bufferQueue, k)
      {
        assert bufferQueue[k].key == k;
      }
    }

    /** Hands out the buffer that has been free longest, or nothing. */
    method Allocate() returns (ret: Option<Buffer>)
      requires Valid()
      modifies this, semaphores
      ensures Valid()
      ensures if old(bufferQueue) == [] then ret == None && bufferQueue == []
              else ret == Some(old(bufferQueue)[0]) && bufferQueue == old(bufferQueue)[1..]
                   && old(semaphores[bufferQueue[0].key]) == 0
      ensures forall k: nat :: k < semaphores.Length && !(ret.Some? && k == ret.value.key) ==> semaphores[k] == old(semaphores[k])
    {
      ret := None;
      if bufferQueue != [] {
        ret := Some(bufferQueue[0]);
        ghost var before := bufferQueue;
        bufferQueue := bufferQueue[1..];
        semaphores[ret.value.key] := semaphores[ret.value.key] + 1;
        QueueTail(before);
      }
    }

    /** Takes a buffer back if it is out; null and a buffer that is free already are refused and change nothing. */
    method Deallocate(buffer: Option<Buffer>) returns (done: bool)
      requires Valid() && (buffer.Some? ==> buffer.value.key < semaphores.Length)
      modifies this, semaphores
      ensures Valid()
      ensures done <==> buffer.Some? && !Holds(old(bufferQueue), buffer.value.key)
      ensures bufferQueue == if done then old(bufferQueue) + [buffer.value] else old(bufferQueue)
      ensures forall k: nat :: k < semaphores.Length && !(done && k == buffer.value.key) ==> semaphores[k] == old(semaphores[k])
    {
      if buffer.None? {
        return false;
      }
      var b := buffer.value;
      if semaphores[b.key] <= 0 {
        return false;
      }
      semaphores[b.key] := semaphores[b.key] - 1;
      QueueBack(bufferQueue, b);
      bufferQueue := bufferQueue + [b];
      return true;
    }
  }

  lemma QueueTail(q: seq<Buffer>)
    requires q != [] && Distinct(q)
    ensures forall k: nat :: Holds(q[1..], k) <==> Holds(q, k) && k != q[0].key
  {
    forall k: nat
      ensures Holds(q[1..], k) <==> Holds(q, k) && k != q[0].key
    {
      HoldsStill(q, [], k, q[0]);
      if Holds(q[1..], k) {
        var i :| 0 <= i < |q[1..]| && q[1..][i].key == k;
        assert q[i + 1].key == k;
      }
    }
  }

  lemma QueueBack(q: seq<Buffer>, b: Buffer)
    ensures forall k: nat :: Holds(q + [b], k) <==> Holds(q, k) || k == b.key
  {
    forall k: nat
      ensures Holds(q + [b], k) <==> Holds(q, k) || k == b.key
    {
      HoldsStill([b], q, k, b);
      assert (q + [b])[|q|] == b;
      if Holds(q + [b], k) {
        var i :| 0 <= i < |q + [b]| && (q + [b])[i].key == k;
        assert i < |q| ==> q[i].key == k;
      }
    }
  }
}
