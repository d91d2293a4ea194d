/**
  Where the server's pooled buffers are. Every buffer has a key; a place holds a queue of buffers; buffers
  move from the front of one queue to the back of another. `owner` says for every key which place has it.
 */
module Ownership {
  import opened Framing

  datatype Buffer = Buffer(key: nat, bytes: seq<byte>)

  /** The pool, the hands of the running method, tokenizer queues, session queues, and what was dropped for good. */
  datatype Place =
    | Free
    | Hand
    | VoiceTokens(channel: int)
    | SessionTokens(session: int)
    | Input(session: int)
    | VoiceList(session: int)
    | Lost

  type Queues = map<Place, seq<Buffer>>

  /** Keys below `n` are spread over the places, each in the place its owner entry names, and only once there. */
  ghost predicate Consistent(at: Queues, owner: map<nat, Place>, n: nat) {
    && (forall k: nat :: k < n ==> k in owner && owner[k] in at && Holds(at[owner[k]], k))
    && (forall p :: p in at ==> OwnedBy(at[p], owner, p, n) && Distinct(at[p]))
  }

  ghost predicate Holds(q: seq<Buffer>, k: nat) {
    exists i :: 0 <= i < |q| && q[i].key == k
  }

  ghost predicate OwnedBy(q: seq<Buffer>, owner: map<nat, Place>, p: Place, n: nat) {
    forall i :: 0 <= i < |q| ==> q[i].key < n && q[i].key in owner && owner[q[i].key] == p
  }

  ghost predicate Distinct(q: seq<Buffer>) {
    forall i, j :: 0 <= i < j < |q| ==> q[i].key != q[j].key
  }

  predicate InPlace(at: Queues, p: Place, i: int, k: nat) {
    p in at && 0 <= i < |at[p]| && at[p][i].key == k
  }

  /** Each key is at exactly one place, and at one index of its queue. */
  ghost predicate ExactlyOnce(at: Queues, k: nat) {
    && (exists p, i :: InPlace(at, p, i, k))
    && (forall p, q, i, j :: InPlace(at, p, i, k) && InPlace(at, q, j, k) ==> p == q && i == j)
  }

  lemma ConsistentIsPartition(at: Queues, owner: map<nat, Place>, n: nat, k: nat)
    requires Consistent(at, owner, n) && k < n
    ensures ExactlyOnce(at, k)
  {
    var p := owner[k];
    var i :| 0 <= i < |at[p]| && at[p][i].key == k;
    assert InPlace(at, p, i, k);
    forall p, q, i, j | InPlace(at, p, i, k) && InPlace(at, q, j, k)
      ensures p == q && i == j
    {
      assert OwnedBy(at[p], owner, p, n) && OwnedBy(at[q], owner, q, n);
      assert Distinct(at[p]);
    }
  }

  /** The queues after the front of `p` has moved to the back of `q`, with its contents set to `bytes`. */
  function Moved(at: Queues, p: Place, q: Place, bytes: seq<byte>): Queues
    requires p in at && q in at && at[p] != []
  {
    at[p := at[p][1..]][q := (if p == q then at[p][1..] else at[q]) + [Buffer(at[p][0].key, bytes)]]
  }

  lemma MovedConsistent(at: Queues, owner: map<nat, Place>, n: nat, p: Place, q: Place, bytes: seq<byte>)
    requires Consistent(at, owner, n) && p in at && q in at && at[p] != [] && p != q
    ensures Consistent(Moved(at, p, q, bytes), owner[at[p][0].key := q], n)
  {
    hide Holds, OwnedBy, Distinct;
    var k, after, owner' := at[p][0].key, Moved(at, p, q, bytes), owner[at[p][0].key := q];
    assert OwnedBy(at[p], owner, p, n) && Distinct(at[p]);
    assert OwnedBy(at[q], owner, q, n) && Distinct(at[q]);
    FrontOut(at[p], owner, p, n, q);
    BackIn(at[q], owner, q, n, Buffer(k, bytes), p);
    forall r | r in after
      ensures OwnedBy(after[r], owner', r, n) && Distinct(after[r])
    {
      if r != p && r != q {
        Elsewhere(at[r], owner, r, n, k, q);
      }
    }
    forall j: nat | j < n
      ensures j in owner' && owner'[j] in after && Holds(after[owner'[j]], j)
    {
      assert Holds(at[owner[j]], j);
      if j != k {
        HoldsStill(at[p], at[q], j, Buffer(k, bytes));
      }
    }
  }

  lemma FrontOut(s: seq<Buffer>, owner: map<nat, Place>, p: Place, n: nat, q: Place)
    requires s != [] && OwnedBy(s, owner, p, n) && Distinct(s)
    ensures s[0].key < n && s[0].key in owner && owner[s[0].key] == p
    ensures OwnedBy(s[1..], owner[s[0].key := q], p, n) && Distinct(s[1..])
  {
  }

  lemma BackIn(s: seq<Buffer>, owner: map<nat, Place>, q: Place, n: nat, b: Buffer, p: Place)
    requires OwnedBy(s, owner, q, n) && Distinct(s) && b.key < n && b.key in owner && owner[b.key] == p != q
    ensures OwnedBy(s + [b], owner[b.key := q], q, n) && Distinct(s + [b]) && Holds(s + [b], b.key)
  {
    assert (s + [b])[|s|] == b;
  }

  lemma Elsewhere(s: seq<Buffer>, owner: map<nat, Place>, r: Place, n: nat, k: nat, q: Place)
    requires OwnedBy(s, owner, r, n) && k in owner && owner[k] != r
    ensures OwnedBy(s, owner[k := q], r, n)
  {
  }

  lemma HoldsStill(s: seq<Buffer>, t: seq<Buffer>, j: nat, b: Buffer)
    requires s != []
    ensures Holds(s, j) && j != s[0].key ==> Holds(s[1..], j)
    ensures Holds(t, j) ==> Holds(t + [b], j)
  {
    if Holds(s, j) && j != s[0].key {
      var i :| 0 <= i < |s| && s[i].key == j;
      assert s[1..][i - 1].key == j;
    }
    if Holds(t, j) {
      var i :| 0 <= i < |t| && t[i].key == j;
      assert (t + [b])[i].key == j;
    }
  }

  /** Empty places may come and go. */
  lemma EmptyPlaceConsistent(at: Queues, owner: map<nat, Place>, n: nat, p: Place)
    requires Consistent(at, owner, n)
    ensures p !in at ==> Consistent(at[p := []], owner, n)
    ensures p in at && at[p] == [] ==> Consistent(at - {p}, owner, n)
  {
    if p !in at {
      assert forall r :: r in at[p := []] ==> r == p || r in at;
    }
    if p in at && at[p] == [] {
      forall k: nat | k < n
        ensures owner[k] in at - {p}
      {
        assert Holds(at[owner[k]], k);
      }
    }
  }
}
