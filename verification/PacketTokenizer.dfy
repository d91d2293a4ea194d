/**
  client/src/network/PacketTokenizer.java and server/voice/PacketTokenizer.java: packets are recovered from
  a byte stream in a fixed store, scanning incrementally and compacting in place. The two differ in the
  packet capacity (2048 and 1024 bytes) and in where packet buffers come from.
 */
module PacketTokenizing {
  import opened Framing
  import opened Options

  const STORE_SIZE: nat := 16384

  /** What fits into a packet buffer; the rest of a longer piece is dropped. */
  function Stored(piece: seq<byte>, capacity: nat): seq<byte> {
    if |piece| <= capacity then piece else piece[..capacity]
  }

  function AllStored(pieces: seq<seq<byte>>, capacity: nat): seq<seq<byte>> {
    seq(|pieces|, i requires 0 <= i < |pieces| => Stored(pieces[i], capacity))
  }

  /** Where a scan resumes: no marker of what is held starts before it. */
  function Resume(held: nat): nat {
    if held <= 7 then 0 else held - 7
  }

  datatype Scan = Scan(pieces: seq<seq<byte>>, rest: seq<byte>, resume: nat)

  /** The first `i` bytes as a piece, if there are any. */
  function Piece(s: seq<byte>, i: nat): seq<seq<byte>>
    requires i <= |s|
  {
    if i == 0 then [] else [s[..i]]
  }

  /** The scanning loop from position `from`: pieces found, bytes left, and where the scan stopped. */
  function ScanFrom(s: seq<byte>, from: nat): Scan
    decreases |s|, if from <= |s| then |s| - from else 0
  {
    if from + 8 > |s| then Scan([], s, from)
    else if MarkerAt(s, from) then
      var r := ScanFrom(s[from + 8..], 0);
      Scan(Piece(s, from) + r.pieces, r.rest, r.resume)
    else ScanFrom(s, from + 1)
  }

  /** The tokenizer's state: bytes held, resume position, packets ready. */
  datatype Tokenizer = Tokenizer(held: seq<byte>, resume: nat, packets: seq<seq<byte>>) {

    /** What holds between calls as long as the store has never overflowed. */
    ghost predicate InStep() {
      MarkerFree(held) && resume == Resume(|held|) && |held| <= STORE_SIZE
    }

    /** One call of `put`: what does not fit is dropped; a full store is emptied and the call refused. */
    function Put(chunk: seq<byte>, capacity: nat): Tokenizer {
      if chunk == [] then this
      else if |held| >= STORE_SIZE then this.(held := [])
      else
        var room := STORE_SIZE - |held|;
        var r := ScanFrom(held + (if |chunk| <= room then chunk else chunk[..room]), resume);
        Tokenizer(r.rest, r.resume, packets + AllStored(r.pieces, capacity))
    }
  }

  lemma ScanFound(s: seq<byte>, from: nat)
    requires MarkerAt(s, from)
    ensures var r := ScanFrom(s[from + 8..], 0);
            ScanFrom(s, from) == Scan(Piece(s, from) + r.pieces, r.rest, r.resume)
  {
  }

  lemma ScanNext(s: seq<byte>, from: nat)
    requires from + 8 <= |s| && !MarkerAt(s, from)
    ensures ScanFrom(s, from) == ScanFrom(s, from + 1)
  {
  }

  lemma ScanEnd(s: seq<byte>, from: nat)
    requires from + 8 > |s|
    ensures ScanFrom(s, from) == Scan([], s, from)
  {
  }

  /** A scan that starts where no marker was passed by yields the tokens, and stops where the next one may start. */
  lemma {:induction false} ScanIsTokens(s: seq<byte>, from: nat)
    requires from <= Resume(|s|) && forall j :: 0 <= j < from ==> !MarkerAt(s, j)
    ensures ScanFrom(s, from) == Scan(Tokens(s).pieces, Tokens(s).rest, Resume(|Tokens(s).rest|))
    decreases |s|, |s| - from
  {
    hide MarkerAt, Find;
    if from + 8 > |s| {
      NoMoreMarkers(s, from);
      TokensStop(s);
    } else if MarkerAt(s, from) {
      FindUnique(s, from);
      TokensStep(s);
      ScanIsTokens(s[from + 8..], 0);
    } else {
      ScanIsTokens(s, from + 1);
    }
  }

  lemma NoMoreMarkers(s: seq<byte>, from: nat)
    requires |s| < from + 8 && from <= |s| && forall j :: 0 <= j < from ==> !MarkerAt(s, j)
    ensures Find(s, 0) == |s| && Tokens(s) == Split([], s)
  {
    forall j | 0 <= j < |s|
      ensures !MarkerAt(s, j)
    {
    }
    FindUnique(s, |s|);
  }

  /** No marker of `held + more` starts where `held` has been scanned already. */
  lemma ScannedStays(held: seq<byte>, more: seq<byte>)
    requires MarkerFree(held)
    ensures Resume(|held|) <= Resume(|held + more|)
    ensures forall j :: 0 <= j < Resume(|held|) ==> !MarkerAt(held + more, j)
  {
    forall j | 0 <= j < Resume(|held|)
      ensures !MarkerAt(held + more, j)
    {
      MarkerInPrefix(held, more, j);
      assert !MarkerAt(held, j);
    }
  }

  /** A chunk that fits: the incremental scan finds exactly the tokens of the bytes held and the chunk. */
  lemma PutIsTokens(t: Tokenizer, chunk: seq<byte>, capacity: nat)
    requires t.InStep() && |t.held| + |chunk| <= STORE_SIZE
    ensures var r := Tokens(t.held + chunk);
            t.Put(chunk, capacity) == Tokenizer(r.rest, Resume(|r.rest|), t.packets + AllStored(r.pieces, capacity))
    ensures t.Put(chunk, capacity).InStep()
  {
    hide MarkerFree, Find, MarkerAt, Tokens;
    var s := t.held + chunk;
    RestMarkerFree(s);
    RestShorter(s);
    if chunk == [] {
      assert s == t.held;
      NoTokens(s);
    } else {
      ScannedStays(t.held, chunk);
      ScanIsTokens(s, t.resume);
    }
  }

  lemma NoTokens(s: seq<byte>)
    requires MarkerFree(s)
    ensures Tokens(s) == Split([], s)
  {
    FindUnique(s, |s|);
  }

  lemma {:induction false} RestShorter(s: seq<byte>)
    ensures |Tokens(s).rest| <= |s|
    decreases |s|
  {
    hide Find, MarkerAt;
    if Find(s, 0) < |s| {
      TokensStep(s);
      RestShorter(Behind(s));
    } else {
      TokensStop(s);
    }
  }

  /** What is ready already has no influence on a put, and stays. */
  lemma PutKeepsPackets(t: Tokenizer, chunk: seq<byte>, capacity: nat)
    ensures t.Put(chunk, capacity).packets == t.packets + t.(packets := []).Put(chunk, capacity).packets
    ensures t.Put(chunk, capacity) == t.(packets := []).Put(chunk, capacity).(packets := t.Put(chunk, capacity).packets)
  {
  }

  // ---- Whole streams ----

  function Joined(chunks: seq<seq<byte>>): seq<byte> {
    if chunks == [] then [] else Joined(chunks[..|chunks| - 1]) + chunks[|chunks| - 1]
  }

  function PutAll(chunks: seq<seq<byte>>, capacity: nat): Tokenizer {
    if chunks == [] then Tokenizer([], 0, [])
    else PutAll(chunks[..|chunks| - 1], capacity).Put(chunks[|chunks| - 1], capacity)
  }

  /** No chunk overfills the store. */
  ghost predicate NeverOverfull(chunks: seq<seq<byte>>) {
    forall k :: 0 <= k < |chunks| ==> |Tokens(Joined(chunks[..k])).rest| + |chunks[k]| <= STORE_SIZE
  }

  lemma StoredAppend(a: seq<seq<byte>>, b: seq<seq<byte>>, capacity: nat)
    ensures AllStored(a + b, capacity) == AllStored(a, capacity) + AllStored(b, capacity)
  {
  }

  /**
    For every stream and every way of cutting it into chunks that never overfill the store, the packets
    are the non-empty marker-separated pieces of the whole stream, cut to the packet capacity, and the
    bytes held are what follows the last marker.
   */
  lemma {:induction false} AnyChunking(chunks: seq<seq<byte>>, capacity: nat)
    requires NeverOverfull(chunks)
    ensures var whole := Tokens(Joined(chunks));
            && PutAll(chunks, capacity) == Tokenizer(whole.rest, Resume(|whole.rest|), AllStored(whole.pieces, capacity))
            && PutAll(chunks, capacity).InStep()
  {
    hide Find, MarkerAt, Tokens, Tokenizer.Put, MarkerFree;
    if chunks == [] {
      EmptyStream();
    } else {
      var before, last := chunks[..|chunks| - 1], chunks[|chunks| - 1];
      forall k | 0 <= k < |before|
        ensures |Tokens(Joined(before[..k])).rest| + |before[k]| <= STORE_SIZE
      {
        assert before[..k] == chunks[..k];
      }
      AnyChunking(before, capacity);
      assert chunks[..|before|] == before;
      PutIsTokens(PutAll(before, capacity), last, capacity);
      ChunkIndependence(Joined(before), last);
      StoredAppend(Tokens(Joined(before)).pieces, Tokens(Tokens(Joined(before)).rest + last).pieces, capacity);
    }
  }

  lemma EmptyStream()
    ensures Tokens([]) == Split([], []) && MarkerFree([]) && AllStored([], 0) == []
  {
  }

  /** A payload longer than a packet buffer arrives cut off at its end; the one behind it is not touched by that. */
  lemma LongPayloadIsCut(p: seq<byte>, next: seq<byte>, capacity: nat)
    requires MarkerFree(p) && capacity < |p| && MarkerFree(next) && 0 < |next| <= capacity && |p| + |next| + 16 <= STORE_SIZE
    ensures Tokenizer([], 0, []).Put(p + MARKER + next + MARKER, capacity) == Tokenizer([], 0, [p[..capacity], next])
  {
    hide MarkerFree, MarkerAt, Find, Tokens;
    var bytes, none: seq<seq<byte>> := p + MARKER + next + MARKER, [];
    EmptyStream();
    assert [] + bytes == bytes;
    PutIsTokens(Tokenizer([], 0, []), bytes, capacity);
    FrameFirst(p, next + MARKER);
    assert p + MARKER + (next + MARKER) == bytes;
    FrameFirst(next, []);
    assert next + MARKER + [] == next + MARKER;
    assert AllStored([p, next], capacity) == [p[..capacity], next];
    assert [p] + ([next] + none) == [p, next] && none + [p[..capacity], next] == [p[..capacity], next];
  }

  // ---- Streams of frames ----

  /** The tokens of a beginning of a framed stream are the first payloads; less than a frame is left over. */
  lemma {:induction false} FramesPrefix(payloads: seq<seq<byte>>, x: seq<byte>) returns (j: nat)
    requires AllMarkerFree(payloads) && (forall i :: 0 <= i < |payloads| ==> payloads[i] != []) && x <= Framed(payloads)
    ensures j <= |payloads| && Tokens(x).pieces == payloads[..j]
    ensures if j == |payloads| then Tokens(x).rest == [] else |Tokens(x).rest| < |payloads[j]| + 8
    ensures x == Framed(payloads) ==> j == |payloads|
  {
    hide MarkerFree, MarkerAt, Find, Tokens, Framed;
    if payloads == [] {
      j := 0;
      TokensNothing();
    } else {
      var p, more := payloads[0], Framed(payloads[1..]);
      var frame := p + MARKER;
      FramedFirst(payloads);
      if |x| < |frame| {
        j := 0;
        assert x == frame[..|x|];
        BeginningFree(p, |x|);
        NoTokens(x);
      } else {
        var x' := x[|frame|..];
        assert x == frame + x' && x' <= more;
        assert |x'| == |more| ==> x' == more[..|more|] == more;
        FrameFirst(p, x');
        var i := FramesPrefix(payloads[1..], x');
        j := i + 1;
        assert payloads[..j] == [p] + payloads[1..][..i];
      }
    }
  }

  lemma FramedFirst(payloads: seq<seq<byte>>)
    requires payloads != []
    ensures Framed(payloads) == payloads[0] + MARKER + Framed(payloads[1..])
  {
  }

  /** A frame at the front of a stream is its first token. */
  lemma FrameFirst(p: seq<byte>, x: seq<byte>)
    requires MarkerFree(p) && p != []
    ensures Tokens(p + MARKER + x) == Split([p] + Tokens(x).pieces, Tokens(x).rest)
  {
    hide MarkerFree, MarkerAt, Find, Tokens, Framed;
    SingleFrame(p);
    FramingRoundTrip([p]);
    ChunkIndependence(p + MARKER, x);
    assert [] + x == x;
  }

  lemma SingleFrame(p: seq<byte>)
    ensures Framed([p]) == p + MARKER
  {
    var none: seq<seq<byte>> := [];
    assert [p][1..] == none && Framed(none) == [];
  }

  lemma TokensNothing()
    ensures Tokens([]) == Split([], []) && Framed([]) == []
  {
  }

  /** A proper beginning of a frame contains no marker. */
  lemma BeginningFree(p: seq<byte>, n: nat)
    requires MarkerFree(p) && n < |p| + 8
    ensures MarkerFree((p + MARKER)[..n])
  {
    var frame := p + MARKER;
    var x, y := frame[..n], frame[n..];
    assert x + y == frame == p + MARKER + [];
    MarkerEndsPayload(p, []);
    forall i
      ensures !MarkerAt(x, i)
    {
      if 0 <= i && i + 8 <= n {
        MarkerInPrefix(x, y, i);
        assert i < Find(frame, 0);
      }
    }
  }

  lemma {:induction false} JoinedPrefix(chunks: seq<seq<byte>>, k: nat)
    requires k <= |chunks|
    ensures Joined(chunks[..k]) <= Joined(chunks)
  {
    if k < |chunks| {
      var front := chunks[..|chunks| - 1];
      JoinedPrefix(front, k);
      assert front[..k] == chunks[..k];
    } else {
      assert chunks[..k] == chunks;
    }
  }

  ghost predicate AtMostLong(chunks: seq<seq<byte>>, n: nat) {
    forall i :: 0 <= i < |chunks| ==> |chunks[i]| <= n
  }

  /** Frames of bounded payloads in bounded chunks never overfill the store: less than a frame is ever held. */
  lemma FramesNeverOverfull(payloads: seq<seq<byte>>, chunks: seq<seq<byte>>, longest: nat, n: nat)
    requires AllMarkerFree(payloads) && (forall i :: 0 <= i < |payloads| ==> 0 < |payloads[i]| <= longest)
    requires Joined(chunks) <= Framed(payloads) && AtMostLong(chunks, n) && longest + 7 + n <= STORE_SIZE
    ensures NeverOverfull(chunks)
  {
    hide MarkerFree, Tokens, Framed;
    forall k | 0 <= k < |chunks|
      ensures |Tokens(Joined(chunks[..k])).rest| + |chunks[k]| <= STORE_SIZE
    {
      JoinedPrefix(chunks, k);
      var _ := FramesPrefix(payloads, Joined(chunks[..k]));
    }
  }

  /**
    What has arrived of a framed stream, in chunks of bounded size, is the first so many payloads, unchanged;
    when all of it has arrived, it is all payloads.
   */
  lemma FramesArriveSoFar(payloads: seq<seq<byte>>, chunks: seq<seq<byte>>, capacity: nat, n: nat) returns (j: nat)
    requires AllMarkerFree(payloads) && forall i :: 0 <= i < |payloads| ==> 0 < |payloads[i]| <= capacity
    requires Joined(chunks) <= Framed(payloads) && AtMostLong(chunks, n) && capacity + 7 + n <= STORE_SIZE
    ensures j <= |payloads| && PutAll(chunks, capacity).packets == payloads[..j]
    ensures Joined(chunks) == Framed(payloads) ==> PutAll(chunks, capacity) == Tokenizer([], 0, payloads)
  {
    hide MarkerFree, Tokens, Framed, NeverOverfull;
    FramesNeverOverfull(payloads, chunks, capacity, n);
    AnyChunking(chunks, capacity);
    j := FramesPrefix(payloads, Joined(chunks));
    assert AllStored(payloads[..j], capacity) == payloads[..j];
    assert payloads[..|payloads|] == payloads;
  }

  // ---- A full store ----

  /** The part of a chunk that a store which is not full takes in. */
  function Fitting(t: Tokenizer, chunk: seq<byte>): seq<byte>
    requires |t.held| <= STORE_SIZE
  {
    if |chunk| <= STORE_SIZE - |t.held| then chunk else chunk[..STORE_SIZE - |t.held|]
  }

  /** A chunk that does not fit does what its first part does; the rest is dropped. */
  lemma PutTruncates(t: Tokenizer, chunk: seq<byte>, capacity: nat)
    requires |t.held| < STORE_SIZE
    ensures t.Put(chunk, capacity) == t.Put(Fitting(t, chunk), capacity)
    ensures |t.held| + |Fitting(t, chunk)| <= STORE_SIZE
  {
    hide ScanFrom, AllStored;
    if |chunk| > STORE_SIZE - |t.held| {
      assert Fitting(t, chunk) != [];
    }
  }

  /** A put leaves the tokenizer in step exactly if it does not find the store full. */
  lemma OverflowExactly(t: Tokenizer, chunk: seq<byte>, capacity: nat)
    requires t.InStep() && chunk != []
    ensures t.Put(chunk, capacity).InStep() <==> |t.held| < STORE_SIZE
  {
    if |t.held| < STORE_SIZE {
      hide MarkerFree, ScanFrom, AllStored;
      PutTruncates(t, chunk, capacity);
      PutIsTokens(t, Fitting(t, chunk), capacity);
    }
  }

  function PutOn(t: Tokenizer, chunks: seq<seq<byte>>, capacity: nat): Tokenizer
    decreases |chunks|
  {
    if chunks == [] then t else PutOn(t.Put(chunks[0], capacity), chunks[1..], capacity)
  }

  /** No marker that starts at the resume position fits into the store. */
  ghost predicate Stuck(t: Tokenizer) {
    |t.held| <= STORE_SIZE && t.resume + 8 > STORE_SIZE
  }

  lemma StuckStays(t: Tokenizer, chunk: seq<byte>, capacity: nat)
    requires Stuck(t)
    ensures Stuck(t.Put(chunk, capacity)) && t.Put(chunk, capacity).packets == t.packets
  {
    if chunk != [] && |t.held| < STORE_SIZE {
      var s := t.held + Fitting(t, chunk);
      ScanEnd(s, t.resume);
      assert t.packets + AllStored([], capacity) == t.packets;
    }
  }

  /**
    Once the store is full, no packet is found any more: not in what is held, and not in any chunks that
    come afterwards, however many frames they contain and however they are cut.
   */
  lemma {:induction false} FullIsStuck(t: Tokenizer, chunks: seq<seq<byte>>, capacity: nat)
    requires (t.InStep() && |t.held| == STORE_SIZE) || Stuck(t)
    ensures PutOn(t, chunks, capacity).packets == t.packets
    decreases |chunks|
  {
    hide MarkerFree;
    if chunks == [] {
    } else {
      StuckStays(t, chunks[0], capacity);
      FullIsStuck(t.Put(chunks[0], capacity), chunks[1..], capacity);
    }
  }

  lemma {:induction false} JoinedUpTo(chunks: seq<seq<byte>>, k: nat)
    requires k < |chunks|
    ensures |Joined(chunks[..k])| + |chunks[k]| <= |Joined(chunks)|
  {
    var front := chunks[..|chunks| - 1];
    if k < |front| {
      JoinedUpTo(front, k);
      assert front[..k] == chunks[..k];
    }
  }

  /** Such a state is reached by any bytes without a marker that fill the store, however they are cut into chunks. */
  lemma FullIsReached(chunks: seq<seq<byte>>, capacity: nat)
    requires |Joined(chunks)| == STORE_SIZE && MarkerFree(Joined(chunks))
    ensures var t := PutAll(chunks, capacity); t.InStep() && t.held == Joined(chunks) && t.packets == []
  {
    hide Find, MarkerFree, Tokens, Joined;
    forall k | 0 <= k < |chunks|
      ensures |Tokens(Joined(chunks[..k])).rest| + |chunks[k]| <= STORE_SIZE
    {
      JoinedUpTo(chunks, k);
      RestShorter(Joined(chunks[..k]));
    }
    AnyChunking(chunks, capacity);
    NoTokens(Joined(chunks));
  }

  /** And there are such bytes, in chunks of any size that divides the store's. */
  lemma FullExists(n: nat, size: nat)
    requires n * size == STORE_SIZE
    ensures var chunks := Alike(n, size);
            AtMostLong(chunks, size) && |Joined(chunks)| == STORE_SIZE && MarkerFree(Joined(chunks))
  {
    AlikeJoined(n, size);
    forall i
      ensures !MarkerAt(Sevens(STORE_SIZE), i)
    {
      if 0 <= i && i + 8 <= STORE_SIZE {
        assert Sevens(STORE_SIZE)[i..i + 8][0] == 7 != MARKER[0];
      }
    }
  }

  function Sevens(n: nat): (r: seq<byte>)
    ensures |r| == n
  {
    seq(n, i => 7)
  }

  function Alike(n: nat, size: nat): (r: seq<seq<byte>>)
    ensures |r| == n
  {
    seq(n, i => Sevens(size))
  }

  lemma {:induction false} AlikeJoined(n: nat, size: nat)
    ensures 0 <= n * size && Joined(Alike(n, size)) == Sevens(n * size)
  {
    if n == 0 {
    } else {
      hide Sevens;
      AlikeJoined(n - 1, size);
      assert Alike(n, size)[..n - 1] == Alike(n - 1, size);
      Times(n, size);
      SevensJoin((n - 1) * size, size);
    }
  }

  lemma Times(n: nat, size: nat)
    requires 0 < n
    ensures 0 <= (n - 1) * size && n * size == (n - 1) * size + size
  {
  }

  lemma SevensJoin(a: nat, b: nat)
    ensures Sevens(a) + Sevens(b) == Sevens(a + b)
  {
  }

  lemma BeforeAll(r: Scan)
    ensures Before([], r) == r
  {
  }

  lemma BeforeNothing(done: seq<seq<byte>>, rest: seq<byte>, resume: nat)
    ensures Before(done, Scan([], rest, resume)) == Scan(done, rest, resume)
  {
  }

  lemma FoundStep(done: seq<seq<byte>>, s: seq<byte>, i: nat, capacity: nat)
    requires MarkerAt(s, i)
    ensures var piece := Piece(s, i);
            && Before(done, ScanFrom(s, i)) == Before(done + piece, ScanFrom(s[i + 8..], 0))
            && AllStored(done + piece, capacity) == AllStored(done, capacity) + AllStored(piece, capacity)
  {
    hide ScanFrom, AllStored;
    var piece, r := Piece(s, i), ScanFrom(s[i + 8..], 0);
    ScanFound(s, i);
    StoredAppend(done, piece, capacity);
    assert done + (piece + r.pieces) == done + piece + r.pieces;
  }

  function Before(done: seq<seq<byte>>, r: Scan): Scan {
    r.(pieces := done + r.pieces)
  }

  class PacketTokenizer {
    var ownBufferQueue: seq<seq<byte>>
    const ownBuffer: array<byte>
    var position: nat
    var prevPosition: nat
    const packetSize: nat

    ghost predicate Valid()
      reads this
    {
      ownBuffer.Length == STORE_SIZE && position <= STORE_SIZE && 0 < packetSize
    }

    ghost function Abs(): Tokenizer
      requires Valid()
      reads this, ownBuffer
    {
      Tokenizer(ownBuffer[..position], prevPosition, ownBufferQueue)
    }

    constructor (packetSize: nat)
      requires 0 < packetSize
      ensures Valid() && fresh(ownBuffer) && this.packetSize == packetSize && Abs() == Tokenizer([], 0, [])
    {
      ownBufferQueue := [];
      ownBuffer := new byte[STORE_SIZE];
      position, prevPosition, this.packetSize := 0, 0, packetSize;
    }

    /**
      Takes a chunk into the store and scans. The chunk's limit is narrowed to what fits and never
      widened again, so the loop runs at most once and the rest of the chunk is dropped.
     */
    method Put(bytes: seq<byte>) returns (ok: bool)
      requires Valid()
      modifies this, ownBuffer
      ensures Valid() && Abs() == old(Abs()).Put(bytes, packetSize)
      ensures ok <==> bytes == [] || old(position) < STORE_SIZE
    {
      hide ScanFrom;
      var savedLimit := |bytes|;
      var at, limit := 0, |bytes|;
      while at < limit
        invariant 0 <= at <= limit <= |bytes| && Valid()
        invariant at == 0 ==> limit == |bytes| && Abs() == old(Abs()) && position == old(position)
        invariant at > 0 ==> at == limit && Abs() == old(Abs()).Put(bytes, packetSize) && old(position) < STORE_SIZE
        decreases limit - at
      {
        if position == ownBuffer.Length {
          position := 0;
          assert Abs().held == [];
          return false;
        }
        limit := savedLimit;
        if limit - at > ownBuffer.Length - position {
          limit := at + (ownBuffer.Length - position);
        }
        ghost var held := ownBuffer[..position];
        forall j | 0 <= j < limit - at {
          ownBuffer[position + j] := bytes[at + j];
        }
        position := position + (limit - at);
        assert ownBuffer[..position] == held + bytes[at..limit];
        assert bytes[at..limit] == if |bytes| <= limit then bytes else bytes[..limit];
        at := limit;
        ScanStore();
      }
      return true;
    }

    /** The scanning loop: emit the piece before every marker found, and move the bytes after it to the front. */
    method ScanStore()
      requires Valid()
      modifies this, ownBuffer
      ensures Valid()
      ensures var r := ScanFrom(old(ownBuffer[..position]), old(prevPosition));
              Abs() == Tokenizer(r.rest, r.resume, old(ownBufferQueue) + AllStored(r.pieces, packetSize))
    {
      ghost var start, done: seq<seq<byte>> := ScanFrom(ownBuffer[..position], prevPosition), [];
      assert AllStored(done, packetSize) == [];
      BeforeAll(start);
      hide ScanFrom, MarkerAt, AllStored, GetLong, Before, Piece;
      var i: nat, end: nat := prevPosition, position;
      while i <= end - 8
        invariant end == position && Valid()
        invariant start == Before(done, ScanFrom(ownBuffer[..end], i))
        invariant ownBufferQueue == old(ownBufferQueue) + AllStored(done, packetSize)
        decreases end, end - i
      {
        ghost var s := ownBuffer[..end];
        MarkerIsLong(s, i);
        if GetLong(ownBuffer[..end], i) == EOF_VALUE {
          FoundStep(done, s, i, packetSize);
          TakePiece(i);
          done := done + Piece(s, i);
          i := 0;
          end := position;
        } else {
          ScanNext(s, i);
          i := i + 1;
        }
      }
      ScanEnd(ownBuffer[..end], i);
      prevPosition := i;
      BeforeNothing(done, ownBuffer[..end], i);
    }

    /** A marker is found at `i`: the bytes before it become a packet, it and they leave the store. */
    method TakePiece(i: nat)
      requires Valid() && i + 8 <= position
      modifies this`position, this`ownBufferQueue, ownBuffer
      ensures Valid() && ownBuffer[..position] == old(ownBuffer[..position])[i + 8..]
      ensures position == old(position) - (i + 8)
      ensures ownBufferQueue == old(ownBufferQueue) + AllStored(Piece(old(ownBuffer[..position]), i), packetSize)
    {
      hide AllStored;
      ghost var s := ownBuffer[..position];
      assert Piece(ownBuffer[..i], i) == Piece(s, i) by {
        assert ownBuffer[..i][..i] == s[..i];
      }
      Emit(i);
      Compact(i);
    }

    /** Moves the bytes behind the marker at `i` to the front. */
    method Compact(i: nat)
      requires Valid() && i + 8 <= position
      modifies this`position, ownBuffer
      ensures Valid() && ownBuffer[..position] == old(ownBuffer[..position])[i + 8..]
      ensures position == old(position) - (i + 8)
    {
      var copyLength := position - (i + 8);
      forall j | 0 <= j < copyLength {
        ownBuffer[j] := ownBuffer[i + 8 + j];
      }
      position := copyLength;
    }

    /**
      Copies the first `i` bytes into a packet buffer. The limit is narrowed to what fits and only widened
      inside the loop, so the loop makes one packet, or none when `i` is zero.
     */
    method Emit(i: nat)
      requires Valid() && i <= position
      modifies this`ownBufferQueue
      ensures ownBufferQueue == old(ownBufferQueue) + AllStored(Piece(ownBuffer[..i], i), packetSize)
    {
      var savedLimit := i;
      var at, limit := 0, i;
      while at < limit
        invariant 0 <= at <= limit <= i && savedLimit == i
        invariant at == 0 ==> limit == i && ownBufferQueue == old(ownBufferQueue)
        invariant at > 0 ==> at == limit && ownBufferQueue == old(ownBufferQueue) + [Stored(ownBuffer[..i], packetSize)]
        decreases limit - at
      {
        limit := savedLimit;
        if packetSize < limit - at {
          limit := at + packetSize;
        }
        assert ownBuffer[at..limit] == Stored(ownBuffer[..i], packetSize);
        ownBufferQueue := ownBufferQueue + [ownBuffer[at..limit]];
        at := limit;
      }
      assert ownBuffer[..i][..i] == ownBuffer[..i];
    }

    method Get() returns (packet: Option<seq<byte>>)
      requires Valid()
      modifies this`ownBufferQueue
      ensures Valid()
      ensures if old(ownBufferQueue) == [] then packet == None && Abs() == old(Abs())
              else packet == Some(old(ownBufferQueue)[0]) && Abs() == old(Abs()).(packets := old(ownBufferQueue)[1..])
    {
      if ownBufferQueue == [] {
        return None;
      }
      packet := Some(ownBufferQueue[0]);
      ownBufferQueue := ownBufferQueue[1..];
    }

    method Flush()
      requires Valid()
      modifies this
      ensures Valid() && Abs() == Tokenizer([], 0, [])
    {
      prevPosition := 0;
      position := 0;
      ownBufferQueue := [];
    }
  }
}
