/**
  What comes of a channel's stream over a run of the server: which of its packets arrive in the list of the session that
  speaks on it.
 */
module ServerStreams {
  import opened Framing
  import opened Options
  import opened Ownership
  import opened PacketTokenizing
  import opened ServerLists
  import opened ServerRuns
  import opened ServerSteps
  import opened Subsequences
  import opened Traffics
  import opened VoiceDataLists
  import opened VoicePacket

  // ---- What arrives from a channel ----

  /** What a read on channel `c` puts through its tokenizer. */
  ghost function ChunkOf(m: Memory, step: Step, c: Place): seq<seq<byte>> {
    if On(step, c) && Reaches(m, c, step.read.input) then [step.read.input.value] else []
  }

  ghost function Chunks(m: Memory, steps: seq<Step>, c: Place, sessions: set<int>): seq<seq<byte>>
    requires Ready(m, sessions) && AllAllowed(steps, sessions)
  {
    if steps == [] then []
    else
      var front, last := steps[..|steps| - 1], steps[|steps| - 1];
      Chunks(m, front, c, sessions) + ChunkOf(AfterSteps(m, front, sessions), last, c)
  }

  /** The step brings no voice of `s`, unless it is a read on channel `c`. */
  ghost predicate Silent(m: Memory, step: Step, c: Place, s: int) {
    match step
    case Tcp(read, r) => read.place == c || NoneFrom(StepQueue(m, read), s, r)
    case Udp(datagram, r) => datagram.Some? ==> UdpVerdict(datagram.value, r) != Data(s)
    case _ => true
  }

  /** Nobody sends voice as session `s`, but on channel `c`. */
  ghost predicate OnlyFrom(m: Memory, steps: seq<Step>, c: Place, s: int, sessions: set<int>)
    requires Ready(m, sessions) && AllAllowed(steps, sessions)
  {
    steps == []
    || (var front, last := steps[..|steps| - 1], steps[|steps| - 1];
        OnlyFrom(m, front, c, s, sessions) && Silent(AfterSteps(m, front, sessions), last, c, s))
  }

  ghost predicate NoneFrom(q: seq<Buffer>, s: int, r: Registry) {
    forall i :: 0 <= i < |q| ==> TcpVerdict(q[i].bytes, r) != Data(s)
  }

  lemma ArrivalsNext(events: seq<Event>, e: Event)
    ensures Arrivals(events + [e]) == if e.Arrive? then Arrivals(events) + [e.b] else Arrivals(events)
  {
    assert (events + [e])[..|events|] == events;
  }

  lemma {:induction false} ArrivalsJoin(a: seq<Event>, b: seq<Event>)
    ensures Arrivals(a + b) == Arrivals(a) + Arrivals(b)
  {
    hide Arrivals;
    NoArrivals();
    if b == [] {
      assert a + b == a && Arrivals(a) + [] == Arrivals(a);
    } else {
      var front, last := b[..|b| - 1], b[|b| - 1];
      ArrivalsJoin(a, front);
      ArrivalsNext(a + front, last);
      ArrivalsNext(front, last);
      assert a + front + [last] == a + b && front + [last] == b;
    }
  }

  lemma NoArrivals()
    ensures Arrivals([]) == []
  {
  }

  lemma {:induction false} TakesBringNothing(n: nat)
    ensures Arrivals(Takes(n)) == []
    decreases n
  {
    hide Arrivals;
    NoArrivals();
    if n > 0 {
      TakesBringNothing(n - 1);
      ArrivalsNext(Takes(n - 1), Take);
      assert Takes(n) == Takes(n - 1) + [Take];
    } else {
      assert Takes(n) == [];
    }
  }

  lemma PacketArrivals(b: DataBuffer, t: int, s: int, r: Registry)
    ensures Arrivals(PacketEvents(b, t, s, r)) == if t == s then [b] else []
  {
    hide Arrivals, SeqOf;
    NoArrivals();
    var arrival: seq<Event> := if t == s then [Arrive(b)] else [];
    var polls: seq<Event> := if t in r.peers && r.peers[t] == s then Takes(RELAY_LIMIT + 1) else [];
    var none: seq<Event> := [];
    ArrivalsNext(none, Arrive(b));
    assert none + [Arrive(b)] == [Arrive(b)] && Arrivals(none) + [b] == [b];
    TakesBringNothing(RELAY_LIMIT + 1);
    ArrivalsJoin(arrival, polls);
    assert Arrivals(arrival) + [] == Arrivals(arrival);
  }

  /** Of the packets queued at a channel, a read lists some, in order, and leaves some behind them queued. */
  lemma {:induction false} QueueSplits(q: seq<Buffer>, s: int, r: Registry)
    ensures Subsequence<seq<byte>>(BytesOf(Arrivals(ReadEvents(q, s, r))) + BytesOf(Unhandled(q, r)), BytesOf(q))
    decreases |q|
  {
    hide Arrivals, TcpVerdict, Subsequence, PacketEvents;
    NoArrivals();
    NoBytes();
    var none: seq<seq<byte>> := [];
    SubsequenceNone<seq<byte>>(none);
    assert none + none == none;
    if q == [] {
    } else {
      var first, rest := q[0].bytes, q[1..];
      assert BytesOf(q) == [first] + BytesOf(rest);
      var listed, left := BytesOf(Arrivals(ReadEvents(rest, s, r))), BytesOf(Unhandled(rest, r));
      match TcpVerdict(first, r)
      case Throws =>
        FrontTaken<seq<byte>>(first, BytesOf(rest));
        assert [] + BytesOf(rest) == BytesOf(rest);
      case Drop(_) =>
        FrontTaken<seq<byte>>(first, BytesOf(rest));
        assert [] + BytesOf(rest) == BytesOf(rest);
      case Data(t) =>
        DataLong(first, r);
        QueueSplits(rest, s, r);
        PacketArrivals(q[0], t, s, r);
        ArrivalsJoin(PacketEvents(q[0], t, s, r), ReadEvents(rest, s, r));
        FrontKept<seq<byte>>(first, listed + left, BytesOf(rest));
        BytesJoin(Arrivals(PacketEvents(q[0], t, s, r)), Arrivals(ReadEvents(rest, s, r)));
        assert [first] + (listed + left) == [first] + listed + left;
        assert [] + listed == listed;
      case _ =>
        QueueSplits(rest, s, r);
        FrontKept<seq<byte>>(first, listed + left, BytesOf(rest));
    }
  }

  lemma {:induction false} NoneArrives(q: seq<Buffer>, s: int, r: Registry)
    requires NoneFrom(q, s, r)
    ensures Arrivals(ReadEvents(q, s, r)) == []
    decreases |q|
  {
    hide Arrivals, TcpVerdict, PacketEvents;
    NoArrivals();
    if q == [] {
    } else {
      var rest := q[1..];
      assert TcpVerdict(q[0].bytes, r) != Data(s);
      NoneArrives(rest, s, r);
      match TcpVerdict(q[0].bytes, r)
      case Data(t) =>
        DataLong(q[0].bytes, r);
        PacketArrivals(q[0], t, s, r);
        ArrivalsJoin(PacketEvents(q[0], t, s, r), ReadEvents(rest, s, r));
      case _ =>
    }
  }

  lemma DataLong(p: seq<byte>, r: Registry)
    ensures TcpVerdict(p, r).Data? ==> |p| >= SEQ_INDEX + 4
  {
  }

  lemma FrontTaken<A(!new)>(x: A, a: seq<A>)
    ensures Subsequence(a, [x] + a)
  {
    SubsequenceSelf(a);
    FrontKept(x, a, a);
  }

  lemma FrontKept<A(!new)>(x: A, a: seq<A>, b: seq<A>)
    requires Subsequence(a, b)
    ensures Subsequence(a, [x] + b) && Subsequence([x] + a, [x] + b)
  {
    SubsequenceNone([x]);
    SubsequenceJoin([], [x], a, b);
    assert [] + a == a;
    SubsequenceSelf([x]);
    SubsequenceJoin([x], [x], a, b);
  }

  lemma DataElsewhere(m: Memory, b: DataBuffer, t: int, r: Registry, sessions: set<int>)
    requires Ready(m, sessions) && t in sessions && r.Within(sessions)
    ensures TcpData(m, b, t, r, sessions).memory.streams == m.streams
  {
    hide AllData;
  }

  lemma {:induction false} RunElsewhere(m: Memory, p: Place, sent: seq<seq<byte>>, r: Registry, sessions: set<int>, c: Place)
    requires Ready(m, sessions) && r.Within(sessions) && p in m.at && p.VoiceTokens? && c.VoiceTokens? && c in m.at && c != p
    ensures var e := TcpRun(m, p, sent, r, sessions).memory; c in e.at && e.at[c] == m.at[c]
    decreases |m.at[p]|
  {
    hide Ready, TcpVerdict, TcpData;
    if m.at[p] == [] {
    } else {
      var b, rest := m.at[p][0], Popped(m, p);
      ReadyPopped(m, p, b, sessions);
      match TcpVerdict(b.bytes, r)
      case Throws =>
      case Drop(_) =>
      case Data(t) =>
        TcpDataReadable(b.bytes, r, sessions);
        var e := TcpData(rest, b, t, r, sessions);
        RunElsewhere(e.memory, p, sent + e.sent, r, sessions, c);
      case _ =>
        RunElsewhere(Freed(rest, b), p, sent, r, sessions, c);
    }
  }

  lemma {:induction false} RunStreams(m: Memory, p: Place, sent: seq<seq<byte>>, r: Registry, sessions: set<int>)
    requires Ready(m, sessions) && r.Within(sessions) && p in m.at && p.VoiceTokens?
    ensures TcpRun(m, p, sent, r, sessions).memory.streams == m.streams
    decreases |m.at[p]|
  {
    hide Ready, TcpVerdict, TcpData;
    if m.at[p] == [] {
    } else {
      var b, rest := m.at[p][0], Popped(m, p);
      ReadyPopped(m, p, b, sessions);
      match TcpVerdict(b.bytes, r)
      case Throws =>
      case Drop(_) =>
      case Data(t) =>
        TcpDataReadable(b.bytes, r, sessions);
        var e := TcpData(rest, b, t, r, sessions);
        DataElsewhere(rest, b, t, r, sessions);
        RunStreams(e.memory, p, sent + e.sent, r, sessions);
      case _ =>
        RunStreams(Freed(rest, b), p, sent, r, sessions);
    }
  }

  // ---- What other steps do to a channel ----

  /** The channel's queue and tokenizer as they were. */
  ghost predicate ChannelKept(m: Memory, e: Memory, c: Place) {
    && (c in m.at ==> c in e.at && e.at[c] == m.at[c])
    && (c in m.streams ==> c in e.streams && e.streams[c] == m.streams[c])
  }

  lemma TcpElsewhere(m: Memory, read: Read, c: Place, r: Registry, sessions: set<int>)
    requires Ready(m, sessions) && r.Within(sessions) && read.place.VoiceTokens? && c.VoiceTokens? && c in m.at && c != read.place
    ensures ChannelKept(m, TcpRead(m, read.place, read.input, r, sessions).memory, c)
  {
    hide Tokenizer.Put, AllData, TcpRun;
    if Handles(m, read) {
      AtPacketsIs(m, read, r, sessions);
      RunElsewhere(AtPackets(m, read), read.place, [], r, sessions, c);
      RunStreams(AtPackets(m, read), read.place, [], r, sessions);
    }
  }

  lemma UdpElsewhere(m: Memory, datagram: Option<seq<byte>>, c: Place, r: Registry, sessions: set<int>)
    requires Ready(m, sessions) && r.Within(sessions) && c.VoiceTokens?
    ensures ChannelKept(m, UdpRead(m, datagram, r, sessions).memory, c)
  {
    hide AllData, SeqOf, UdpVerdict, DataList.Evicted, DataList.Offer;
    if m.free != [] && datagram.Some? && datagram.value != [] {
      UdpDataReadable(datagram.value, r, sessions);
    }
  }

  lemma {:induction false} AffectedElsewhere(m: Memory, effects: seq<Effect>, c: Place, sessions: set<int>)
    requires Ready(m, sessions) && AllWithin(effects, sessions) && c.VoiceTokens?
    ensures ChannelKept(m, AllAffected(m, effects, sessions), c)
    decreases |effects|
  {
    hide Ready, Affected;
    if effects == [] {
    } else {
      OneElsewhere(m, effects[0], c, sessions);
      AffectedElsewhere(Affected(m, effects[0], sessions), effects[1..], c, sessions);
    }
  }

  lemma OneElsewhere(m: Memory, effect: Effect, c: Place, sessions: set<int>)
    requires Ready(m, sessions) && effect.Within(sessions) && c.VoiceTokens?
    ensures ChannelKept(m, Affected(m, effect, sessions), c)
  {
    hide AllData, OwnClosed, Cleared;
    match effect
    case ResetVoice(p) => ClearedElsewhere(m, p, c);
    case CloseSession(p, peer) =>
      OwnClosedReady(m, p, sessions);
      OwnClosedElsewhere(m, p, c);
      if peer.Some? {
        ClearedElsewhere(OwnClosed(m, p), peer.value, c);
      }
  }

  lemma ClearedElsewhere(m: Memory, p: int, c: Place)
    requires VoiceList(p) in m.at && c.VoiceTokens?
    ensures ChannelKept(m, Cleared(m, p), c)
  {
  }

  lemma OwnClosedElsewhere(m: Memory, p: int, c: Place)
    requires SessionTokens(p) in m.at && Input(p) in m.at && VoiceList(p) in m.at && c.VoiceTokens?
    ensures ChannelKept(m, OwnClosed(m, p), c)
  {
  }

  lemma {:induction false} SessionRunElsewhere(m: Memory, t: int, hasCipher: bool, handlings: seq<Handling>, c: Place, sessions: set<int>)
    requires Ready(m, sessions) && t in sessions && AllHandlingsWithin(handlings, sessions) && c.VoiceTokens?
    requires |m.at[SessionTokens(t)]| <= |handlings|
    ensures ChannelKept(m, SessionRun(m, t, hasCipher, handlings, sessions).memory, c)
    decreases |handlings|
  {
    hide AllData, AllAffected, AllWithin, FateOf;
    var p := SessionTokens(t);
    if m.at[p] == [] {
    } else {
      var b, rest := m.at[p][0], Popped(m, p);
      var f := FateOf(b.bytes, hasCipher, handlings[0]);
      SessionPopped(m, t, sessions);
      if f.Message? {
        MessageWithin(b.bytes, hasCipher, handlings, sessions);
        AffectedElsewhere(rest, f.effects, c, sessions);
        var after := AllAffected(rest, f.effects, sessions);
        SessionFreed(after, b, sessions);
        SessionRunElsewhere(Freed(after, b), t, hasCipher, handlings[1..], c, sessions);
      }
    }
  }

  lemma SessionReadElsewhere(m: Memory, t: int, hasCipher: bool, handlings: seq<Handling>, c: Place, sessions: set<int>)
    requires Ready(m, sessions) && t in sessions && AllHandlingsWithin(handlings, sessions) && c.VoiceTokens?
    requires m.at[Input(t)] != [] ==> |PacketsAfter(m, t)| <= |handlings|
    ensures ChannelKept(m, SessionRead(m, t, hasCipher, handlings, sessions).memory, c)
  {
    hide AllData, SessionRun, Tokenizer.Put, AllHandlingsWithin, Overruns, Checked;
    if m.at[Input(t)] != [] && !Refuses(m, SessionTokens(t), m.at[Input(t)][0].bytes) {
      var p, b, taken := SessionTokens(t), m.at[Input(t)][0], Popped(m, Input(t));
      if |Found(m, p, b.bytes)| <= |m.free| {
        var q := PacketsAfter(m, t);
        var start := Freed(Tokenized(taken, p, b.bytes), b);
        assert start.at[p] == q && ChannelKept(m, start, c);
        CheckedWithin(q, handlings, sessions);
        SessionRunElsewhere(start, t, hasCipher, Checked(q, handlings), c, sessions);
      }
    }
  }

  /** Any step but a read on it or its closing leaves a channel's queue and tokenizer alone. */
  lemma ChannelElsewhere(m: Memory, step: Step, c: Place, sessions: set<int>)
    requires Ready(m, sessions) && step.Allowed(sessions) && c.VoiceTokens? && c in m.at && !On(step, c) && step != Close(c)
    ensures ChannelKept(m, After(m, step, sessions), c)
  {
    hide AllData, TcpRead, UdpRead, SessionRead, PacketsAfter, AllHandlingsWithin;
    match step
    case Tcp(read, r) => TcpElsewhere(m, read, c, r, sessions);
    case Udp(datagram, r) => UdpElsewhere(m, datagram, c, r, sessions);
    case Messages(t, hasCipher, _) => SessionReadElsewhere(m, t, hasCipher, step.Handlings(Pending(m, t)), c, sessions);
    case _ =>
  }

  /** A read on this channel that its tokenizer does not refuse. */
  lemma ChannelRead(m: Memory, read: Read, s: int, r: Registry, sessions: set<int>)
    requires Ready(m, sessions) && r.Within(sessions) && read.place.VoiceTokens? && read.place in m.at
    requires read.place in m.streams && |m.streams[read.place].held| < STORE_SIZE
    ensures var c, e := read.place, TcpRead(m, read.place, read.input, r, sessions).memory;
            && c in e.at && c in e.streams
            && (!Reaches(m, c, read.input) ==> e.at[c] == m.at[c] && e.streams[c] == m.streams[c] && ReadEvents(StepQueue(m, read), s, r) == [])
            && (Reaches(m, c, read.input) ==>
                  && e.streams[c] == m.streams[c].Put(read.input.value, VOICE_DATA_SIZE).(packets := [])
                  && Subsequence<seq<byte>>(BytesOf(Arrivals(ReadEvents(StepQueue(m, read), s, r))) + BytesOf(e.at[c]),
                                            BytesOf(m.at[c]) + Found(m, c, read.input.value)))
            && (Handles(m, read) ==> e.at[c] == Unhandled(StepQueue(m, read), r))
  {
    hide Tokenizer.Put, AllData, TcpRun, Subsequence, Arrivals, ReadEvents, Unhandled;
    var c := read.place;
    NoEvents(s, r);
    if Handles(m, read) {
      AtPacketsIs(m, read, r, sessions);
      RunOutcome(AtPackets(m, read), c, [], r, sessions);
      RunStreams(AtPackets(m, read), c, [], r, sessions);
      QueueSplits(StepQueue(m, read), s, r);
      FilledBytes(m.at[c], m.free[1..], Found(m, c, read.input.value));
    } else if Reaches(m, c, read.input) {
      ExhaustedBytes(m, c, read.input.value, s, r);
    }
  }

  lemma FilledBytes(q: seq<Buffer>, free: seq<Buffer>, packets: seq<seq<byte>>)
    requires |packets| <= |free|
    ensures BytesOf(q + Filled(free, packets)) == BytesOf(q) + packets
  {
  }

  /** When the pool runs out, some of the packets found are queued, and none is handled. */
  lemma ExhaustedBytes(m: Memory, c: Place, bytes: seq<byte>, s: int, r: Registry)
    requires m.free != [] && c in m.at && c in m.streams && |Found(m, c, bytes)| >= |m.free|
    ensures var left := Tokenized(Taken(m), c, bytes);
            Subsequence<seq<byte>>(BytesOf(Arrivals([])) + BytesOf(left.at[c]), BytesOf(m.at[c]) + Found(m, c, bytes))
  {
    hide Tokenizer.Put, Subsequence;
    var packets := Found(m, c, bytes);
    var n := |m.free| - 1;
    var none: seq<seq<byte>> := [];
    FilledBytes(m.at[c], m.free[1..], packets[..n]);
    SubsequenceFront<seq<byte>>(packets, n);
    SubsequenceSelf<seq<byte>>(BytesOf(m.at[c]));
    SubsequenceJoin<seq<byte>>(BytesOf(m.at[c]), BytesOf(m.at[c]), packets[..n], packets);
    assert none + (BytesOf(m.at[c]) + packets[..n]) == BytesOf(m.at[c]) + packets[..n];
  }

  ghost predicate InputsAtMost(steps: seq<Step>, n: nat) {
    forall i :: 0 <= i < |steps| && steps[i].Tcp? && steps[i].read.input.Some? ==> |steps[i].read.input.value| <= n
  }

  /** A new channel, not closed during the run, on which, in reads of bounded size, a beginning of a framed stream has come in. */
  ghost predicate Streaming(m: Memory, steps: seq<Step>, c: Place, sessions: set<int>, payloads: seq<seq<byte>>)
    requires Ready(m, sessions) && AllAllowed(steps, sessions)
  {
    && c.VoiceTokens? && c in m.at && m.at[c] == [] && c in m.streams && m.streams[c] == NEW_STREAM
    && InputsAtMost(steps, VOICE_DATA_SIZE) && Close(c) !in steps
    && AllMarkerFree(payloads) && (forall i :: 0 <= i < |payloads| ==> 0 < |payloads[i]| <= VOICE_DATA_SIZE)
    && Joined(Chunks(m, steps, c, sessions)) <= Framed(payloads)
  }

  lemma {:induction false} ChunksBounded(m: Memory, steps: seq<Step>, c: Place, sessions: set<int>, n: nat)
    requires Ready(m, sessions) && AllAllowed(steps, sessions) && InputsAtMost(steps, n)
    ensures AtMostLong(Chunks(m, steps, c, sessions), n)
  {
    hide Ready, AfterSteps, Step.Allowed;
    if steps == [] {
    } else {
      ChunksBounded(m, steps[..|steps| - 1], c, sessions, n);
    }
  }

  lemma StreamingBefore(m: Memory, steps: seq<Step>, c: Place, sessions: set<int>, payloads: seq<seq<byte>>)
    requires Ready(m, sessions) && AllAllowed(steps, sessions) && steps != [] && Streaming(m, steps, c, sessions, payloads)
    ensures Streaming(m, steps[..|steps| - 1], c, sessions, payloads)
  {
    hide Ready, AfterSteps, AllMarkerFree, Framed, Joined, Step.Allowed;
    var front := steps[..|steps| - 1];
    var before, all := Chunks(m, front, c, sessions), Chunks(m, steps, c, sessions);
    JoinedPrefix(all, |before|);
    assert all[..|before|] == before;
  }

  /** Less than a frame is held, so the tokenizer is never full. */
  lemma HeldLittle(m: Memory, steps: seq<Step>, c: Place, sessions: set<int>, payloads: seq<seq<byte>>)
    requires Ready(m, sessions) && AllAllowed(steps, sessions) && Streaming(m, steps, c, sessions, payloads)
    ensures NeverOverfull(Chunks(m, steps, c, sessions)) && |PutAll(Chunks(m, steps, c, sessions), VOICE_DATA_SIZE).held| < STORE_SIZE
  {
    hide Ready, AllMarkerFree, Framed, NeverOverfull, Tokens, Step.Allowed;
    var chunks := Chunks(m, steps, c, sessions);
    ChunksBounded(m, steps, c, sessions, VOICE_DATA_SIZE);
    FramesNeverOverfull(payloads, chunks, VOICE_DATA_SIZE, VOICE_DATA_SIZE);
    AnyChunking(chunks, VOICE_DATA_SIZE);
    var _ := FramesPrefix(payloads, Joined(chunks));
  }

  /** The tokenizer of the channel is where its chunks have led it; what it has found is in the packets queued. */
  lemma NextPut(before: seq<seq<byte>>, chunk: seq<byte>, t: Tokenizer)
    requires t == PutAll(before, VOICE_DATA_SIZE).(packets := [])
    ensures PutAll(before + [chunk], VOICE_DATA_SIZE).(packets := []) == t.Put(chunk, VOICE_DATA_SIZE).(packets := [])
    ensures PutAll(before + [chunk], VOICE_DATA_SIZE).packets == PutAll(before, VOICE_DATA_SIZE).packets + t.Put(chunk, VOICE_DATA_SIZE).packets
  {
    hide Tokenizer.Put;
    assert (before + [chunk])[..|before|] == before;
    PutKeepsPackets(PutAll(before, VOICE_DATA_SIZE), chunk, VOICE_DATA_SIZE);
  }

  /**
    What has arrived in a session's list over a run, with what is still queued at the channel it sends on, is, in order, part
    of the packets found in that channel's stream; even when reads fail, packets are refused or the pool runs out.
   */
  lemma {:induction false} ArrivedWasFound(m: Memory, steps: seq<Step>, c: Place, s: int, sessions: set<int>, payloads: seq<seq<byte>>)
    requires Ready(m, sessions) && AllAllowed(steps, sessions) && s in sessions
    requires Streaming(m, steps, c, sessions, payloads) && OnlyFrom(m, steps, c, s, sessions)
    ensures var now, t := AfterSteps(m, steps, sessions), PutAll(Chunks(m, steps, c, sessions), VOICE_DATA_SIZE);
            && c in now.at && c in now.streams && now.streams[c] == t.(packets := [])
            && Subsequence<seq<byte>>(BytesOf(Arrivals(RunEvents(m, steps, s, sessions))) + BytesOf(now.at[c]), t.packets)
  {
    hide Ready, Step.Allowed, After, ChunkOf, Tokenizer.Put, Streaming, StepEvents, Silent, Subsequence, Arrivals, BytesOf;
    NoArrivals();
    NoBytes();
    var none: seq<seq<byte>> := [];
    assert none + none == none;
    StreamingStart(m, steps, c, sessions, payloads);
    if steps == [] {
      SubsequenceNone<seq<byte>>(none);
    } else {
      var front, last := steps[..|steps| - 1], steps[|steps| - 1];
      StreamingBefore(m, steps, c, sessions, payloads);
      ArrivedWasFound(m, front, c, s, sessions, payloads);
      HeldLittle(m, front, c, sessions, payloads);
      ArrivedNext(m, front, last, c, s, sessions);
    }
  }

  lemma StreamingStart(m: Memory, steps: seq<Step>, c: Place, sessions: set<int>, payloads: seq<seq<byte>>)
    requires Ready(m, sessions) && AllAllowed(steps, sessions) && Streaming(m, steps, c, sessions, payloads)
    ensures c.VoiceTokens? && c in m.at && m.at[c] == [] && c in m.streams && m.streams[c] == NEW_STREAM && Close(c) !in steps
  {
  }

  /** One step more. */
  lemma ArrivedNext(m: Memory, front: seq<Step>, last: Step, c: Place, s: int, sessions: set<int>)
    requires Ready(m, sessions) && AllAllowed(front, sessions) && last.Allowed(sessions) && c.VoiceTokens? && s in sessions && last != Close(c)
    requires var now, t := AfterSteps(m, front, sessions), PutAll(Chunks(m, front, c, sessions), VOICE_DATA_SIZE);
             && c in now.at && c in now.streams && now.streams[c] == t.(packets := []) && |t.held| < STORE_SIZE
             && Subsequence<seq<byte>>(BytesOf(Arrivals(RunEvents(m, front, s, sessions))) + BytesOf(now.at[c]), t.packets)
             && Silent(now, last, c, s)
    ensures var now := AfterSteps(m, front, sessions);
            var e, t := After(now, last, sessions), PutAll(Chunks(m, front, c, sessions) + ChunkOf(now, last, c), VOICE_DATA_SIZE);
            && c in e.at && c in e.streams && e.streams[c] == t.(packets := [])
            && Subsequence<seq<byte>>(BytesOf(Arrivals(RunEvents(m, front, s, sessions) + StepEvents(now, last, s, sessions))) + BytesOf(e.at[c]), t.packets)
  {
    hide Ready, Step.Allowed, TcpRead, UdpRead, SessionRead, SelectorRead, Tokenizer.Put, ReadEvents, DatagramEvents, StepQueue, Handles;
    hide Subsequence, Arrivals, BytesOf, PutAll, Chunks, RunEvents, AfterSteps, Silent, ListOf, Reaches;
    var now, before := AfterSteps(m, front, sessions), RunEvents(m, front, s, sessions);
    var events, chunks := StepEvents(now, last, s, sessions), Chunks(m, front, c, sessions);
    var arrived, queued := BytesOf(Arrivals(before)), BytesOf(now.at[c]);
    NoArrivals();
    ArrivalsJoin(before, events);
    BytesJoin(Arrivals(before), Arrivals(events));
    assert chunks + [] == chunks;
    assert Arrivals(before) + [] == Arrivals(before);
    if !On(last, c) {
      ChannelElsewhere(now, last, c, sessions);
      SilentBringsNone(now, last, c, s, sessions);
    } else {
      OnAllowed(last, c, sessions);
      ChannelRead(now, last.read, s, last.registry, sessions);
      if Reaches(now, c, last.read.input) {
        ReachesInput(now, c, last.read.input);
        NextPut(chunks, last.read.input.value, now.streams[c]);
        ArrivedGrows(arrived, queued, PutAll(chunks, VOICE_DATA_SIZE).packets, Found(now, c, last.read.input.value),
                     BytesOf(Arrivals(events)), BytesOf(After(now, last, sessions).at[c]));
      }
    }
  }

  lemma OnAllowed(step: Step, c: Place, sessions: set<int>)
    requires On(step, c) && step.Allowed(sessions)
    ensures step.registry.Within(sessions) && c.VoiceTokens?
  {
  }

  lemma ReachesInput(m: Memory, c: Place, input: Option<seq<byte>>)
    ensures Reaches(m, c, input) ==> input.Some?
  {
  }

  lemma SilentBringsNone(m: Memory, step: Step, c: Place, s: int, sessions: set<int>)
    requires Ready(m, sessions) && step.Allowed(sessions) && s in sessions && Silent(m, step, c, s) && !On(step, c)
    ensures Arrivals(StepEvents(m, step, s, sessions)) == []
  {
    hide AllData, Arrivals, TcpVerdict, UdpVerdict, StepQueue, After, ListOf, ReadEvents, DatagramEvents, AllHandlingsWithin;
    NoArrivals();
    var none: seq<Event> := [];
    ArrivalsNext(none, Clear);
    assert none + [Clear] == [Clear];
    match step
    case Tcp(read, r) => NoneArrives(StepQueue(m, read), s, r);
    case Udp(datagram, r) => SilentDatagram(m, datagram, s, r);
    case _ =>
  }

  lemma SilentDatagram(m: Memory, datagram: Option<seq<byte>>, s: int, r: Registry)
    requires VoiceList(s) in m.at && (datagram.Some? ==> UdpVerdict(datagram.value, r) != Data(s))
    ensures Arrivals(DatagramEvents(m, datagram, s, r)) == []
  {
    hide Arrivals, UdpVerdict, Takes;
    NoArrivals();
    var none: seq<Event> := [];
    var polls := Takes(|m.at[VoiceList(s)]| + 1);
    TakesBringNothing(|m.at[VoiceList(s)]| + 1);
    assert none + polls == polls && none + none == none;
  }

  lemma ArrivedGrows<A(!new)>(arrived: seq<A>, queued: seq<A>, found: seq<A>, more: seq<A>, next: seq<A>, left: seq<A>)
    requires Subsequence(arrived + queued, found) && Subsequence(next + left, queued + more)
    ensures Subsequence(arrived + next + left, found + more)
  {
    hide Subsequence;
    SubsequenceSelf(arrived);
    SubsequenceJoin(arrived, arrived, next + left, queued + more);
    SubsequenceSelf(more);
    SubsequenceJoin(arrived + queued, found, more, more);
    assert arrived + (next + left) == arrived + next + left;
    assert arrived + (queued + more) == arrived + queued + more;
    SubsequenceTrans(arrived + next + left, arrived + queued + more, found + more);
  }

  // ---- Whose voice arrives ----

  /** A voice packet under a phone number, whoever may be registered. */
  predicate IsVoiceOf(p: seq<byte>, phone: seq<byte>) {
    |p| >= SEQ_INDEX + 4 && LengthOk(p) && p[..PHONE_NUMBER_LENGTH] == phone && p[PHONE_NUMBER_LENGTH] == PACKET_TYPE_DATA
  }

  /** The voice packets under a phone number, in order. */
  function VoiceOf(packets: seq<seq<byte>>, phone: seq<byte>): seq<seq<byte>> {
    if packets == [] then []
    else
      var front, last := packets[..|packets| - 1], packets[|packets| - 1];
      VoiceOf(front, phone) + (if IsVoiceOf(last, phone) then [last] else [])
  }

  ghost predicate AllVoice(packets: seq<seq<byte>>, phone: seq<byte>) {
    forall i :: 0 <= i < |packets| ==> IsVoiceOf(packets[i], phone)
  }

  /** No number but `phone` leads to session `s`. */
  ghost predicate OnlyNumber(r: Registry, s: int, phone: seq<byte>) {
    forall p :: p in r.phoneBook && r.phoneBook[p] == s ==> p == phone
  }

  /** The session is registered with its number. */
  predicate Knows(r: Registry, s: int, phone: seq<byte>) {
    phone in r.phoneBook && r.phoneBook[phone] == s && s in r.active
  }

  lemma VoiceVerdict(p: seq<byte>, s: int, phone: seq<byte>, r: Registry)
    requires OnlyNumber(r, s, phone)
    ensures TcpVerdict(p, r) == Data(s) ==> IsVoiceOf(p, phone)
    ensures IsVoiceOf(p, phone) && Knows(r, s, phone) ==> TcpVerdict(p, r) == Data(s)
  {
    hide LengthOk;
  }

  /** A packet is taken as voice of `s` exactly if it is voice under a number with which `s` is registered; on UDP alike. */
  lemma DataExactly(p: seq<byte>, s: int, r: Registry)
    ensures TcpVerdict(p, r) == Data(s) <==> |p| >= PHONE_NUMBER_LENGTH && IsVoiceOf(p, p[..PHONE_NUMBER_LENGTH]) && Knows(r, s, p[..PHONE_NUMBER_LENGTH])
    ensures UdpVerdict(p, r) == Data(s) <==> TcpVerdict(p, r) == Data(s)
    ensures UdpVerdict(p, r).Addresses? <==> TcpVerdict(p, r).Addresses?
  {
    hide LengthOk;
  }

  /** And a read ends early, or throws, at a packet exactly if its length is wrong, its number unknown or not active, or it is cut short. */
  lemma PassesExactly(p: seq<byte>, r: Registry)
    ensures Passes(p, r) <==>
              && |p| >= PHONE_NUMBER_LENGTH + 1 && LengthOk(p) && p[..PHONE_NUMBER_LENGTH] in r.phoneBook
              && r.phoneBook[p[..PHONE_NUMBER_LENGTH]] in r.active
              && |p| >= (if p[PHONE_NUMBER_LENGTH] == PACKET_TYPE_DATA then SEQ_INDEX + 4
                         else if p[PHONE_NUMBER_LENGTH] == PACKET_TYPE_IP then SEQ_INDEX + 12 else 0)
  {
    hide GetInt;
  }

  lemma VoiceOfNext(packets: seq<seq<byte>>, p: seq<byte>, phone: seq<byte>)
    ensures VoiceOf(packets + [p], phone) == VoiceOf(packets, phone) + (if IsVoiceOf(p, phone) then [p] else [])
  {
    hide IsVoiceOf;
    assert (packets + [p])[..|packets|] == packets;
  }

  lemma {:induction false} VoiceOfJoin(a: seq<seq<byte>>, b: seq<seq<byte>>, phone: seq<byte>)
    ensures VoiceOf(a + b, phone) == VoiceOf(a, phone) + VoiceOf(b, phone)
  {
    hide IsVoiceOf, VoiceOf;
    if b == [] {
      NoVoices(phone);
      assert a + b == a;
    } else {
      var front, last := b[..|b| - 1], b[|b| - 1];
      VoiceOfJoin(a, front, phone);
      VoiceOfNext(a + front, last, phone);
      VoiceOfNext(front, last, phone);
      assert a + front + [last] == a + b && front + [last] == b;
    }
  }

  /** What is left of packets when only voice is left is left of their voice. */
  lemma {:induction false} VoicePart(a: seq<seq<byte>>, b: seq<seq<byte>>, phone: seq<byte>)
    requires Subsequence<seq<byte>>(a, b) && AllVoice(a, phone)
    ensures Subsequence<seq<byte>>(a, VoiceOf(b, phone))
  {
    hide IsVoiceOf;
    if b == [] {
    } else {
      var b', last := b[..|b| - 1], b[|b| - 1];
      if Subsequence<seq<byte>>(a, b') {
        VoicePart(a, b', phone);
        SubsequenceExtend<seq<byte>>(a, VoiceOf(b', phone), if IsVoiceOf(last, phone) then [last] else []);
      } else {
        var a' := a[..|a| - 1];
        VoicePart(a', b', phone);
        SubsequenceLast<seq<byte>>(a', VoiceOf(b', phone), last);
        assert a' + [last] == a;
      }
    }
  }

  /** What a read of these packets lists for `s` is voice under its number. */
  lemma {:induction false} ListedIsVoice(q: seq<Buffer>, s: int, phone: seq<byte>, r: Registry)
    requires OnlyNumber(r, s, phone)
    ensures AllVoice(BytesOf(Arrivals(ReadEvents(q, s, r))), phone)
    decreases |q|
  {
    hide Arrivals, TcpVerdict, PacketEvents, IsVoiceOf, OnlyNumber;
    NoArrivals();
    if q == [] {
    } else {
      var rest := q[1..];
      VoiceVerdict(q[0].bytes, s, phone, r);
      ListedIsVoice(rest, s, phone, r);
      match TcpVerdict(q[0].bytes, r)
      case Data(t) =>
        DataLong(q[0].bytes, r);
        PacketArrivals(q[0], t, s, r);
        ArrivalsJoin(PacketEvents(q[0], t, s, r), ReadEvents(rest, s, r));
        AllVoiceJoin(Arrivals(PacketEvents(q[0], t, s, r)), Arrivals(ReadEvents(rest, s, r)), phone);
      case _ =>
    }
  }

  lemma AllVoiceJoin(a: seq<Buffer>, b: seq<Buffer>, phone: seq<byte>)
    requires AllVoice(BytesOf(a), phone) && AllVoice(BytesOf(b), phone)
    ensures AllVoice(BytesOf(a + b), phone)
  {
    hide IsVoiceOf;
    BytesJoin(a, b);
  }

  /** In every registry of the run only `phone` leads to `s`. */
  ghost predicate OneNumber(steps: seq<Step>, s: int, phone: seq<byte>) {
    forall i :: 0 <= i < |steps| && steps[i].Tcp? ==> OnlyNumber(steps[i].registry, s, phone)
  }

  lemma {:induction false} ArrivedIsVoice(m: Memory, steps: seq<Step>, c: Place, s: int, sessions: set<int>, phone: seq<byte>)
    requires Ready(m, sessions) && AllAllowed(steps, sessions) && s in sessions
    requires OnlyFrom(m, steps, c, s, sessions) && OneNumber(steps, s, phone)
    ensures AllVoice(BytesOf(Arrivals(RunEvents(m, steps, s, sessions))), phone)
  {
    hide Ready, After, Arrivals, IsVoiceOf, OnlyNumber, ReadEvents, DatagramEvents, ListOf, Silent, StepQueue;
    NoArrivals();
    if steps == [] {
    } else {
      var front, last := steps[..|steps| - 1], steps[|steps| - 1];
      var now, before := AfterSteps(m, front, sessions), RunEvents(m, front, s, sessions);
      var events := StepEvents(now, last, s, sessions);
      ArrivedIsVoice(m, front, c, s, sessions, phone);
      ArrivalsJoin(before, events);
      if On(last, c) {
        ListedIsVoice(StepQueue(now, last.read), s, phone, last.registry);
      } else {
        SilentBringsNone(now, last, c, s, sessions);
      }
      AllVoiceJoin(Arrivals(before), Arrivals(events), phone);
    }
  }

  // ---- When everything arrives ----

  /** The pool has a buffer for every packet found on channel `c`, and one more to read into. */
  ghost predicate Ample(m: Memory, steps: seq<Step>, c: Place, sessions: set<int>)
    requires Ready(m, sessions) && AllAllowed(steps, sessions)
  {
    steps == []
    || (var front, last := steps[..|steps| - 1], steps[|steps| - 1];
        var now := AfterSteps(m, front, sessions);
        Ample(m, front, c, sessions) && (On(last, c) && Reaches(now, c, last.read.input) ==> Handles(now, last.read)))
  }

  /** The packet loop goes on behind such a packet. */
  predicate Passes(p: seq<byte>, r: Registry) {
    !TcpVerdict(p, r).Throws? && !TcpVerdict(p, r).Drop?
  }

  ghost predicate AllPass(packets: seq<seq<byte>>, r: Registry) {
    forall i :: 0 <= i < |packets| ==> Passes(packets[i], r)
  }

  /** A read reports success exactly if it gets to its packets and all of them pass. */
  lemma GoodExactly(m: Memory, read: Read, r: Registry, sessions: set<int>)
    requires Ready(m, sessions) && r.Within(sessions) && read.place.VoiceTokens?
    ensures TcpRead(m, read.place, read.input, r, sessions).code == Good <==> Handles(m, read) && AllPass(BytesOf(StepQueue(m, read)), r)
  {
    hide Tokenizer.Put, AllData, TcpRun, CodeOf, Passes;
    if Handles(m, read) {
      AtPacketsIs(m, read, r, sessions);
      RunOutcome(AtPackets(m, read), read.place, [], r, sessions);
      GoodCode(StepQueue(m, read), r);
    }
  }

  lemma {:induction false} GoodCode(q: seq<Buffer>, r: Registry)
    ensures CodeOf(q, r) == Good <==> AllPass(BytesOf(q), r)
  {
    hide TcpVerdict;
    if q == [] {
    } else {
      VerdictCodes(q[0].bytes, r);
      GoodCode(q[1..], r);
      assert BytesOf(q)[0] == q[0].bytes;
      assert forall i :: 0 <= i < |q[1..]| ==> BytesOf(q)[i + 1] == BytesOf(q[1..])[i];
      if AllPass(BytesOf(q[1..]), r) && Passes(q[0].bytes, r) {
        forall i | 0 <= i < |q|
          ensures Passes(BytesOf(q)[i], r)
        {
          assert i > 0 ==> BytesOf(q)[i] == BytesOf(q[1..])[i - 1];
        }
      }
    }
  }

  /** Whenever channel `c` is read, the session is registered, and no packet of the stream is one that ends a read. */
  ghost predicate Serving(steps: seq<Step>, c: Place, s: int, phone: seq<byte>, payloads: seq<seq<byte>>) {
    forall i :: 0 <= i < |steps| && On(steps[i], c) ==> Knows(steps[i].registry, s, phone) && AllPass(payloads, steps[i].registry)
  }

  /** A queue without a packet that ends the read is read to its end, and its voice is listed. */
  lemma {:induction false} QueueArrives(q: seq<Buffer>, s: int, phone: seq<byte>, r: Registry)
    requires AllPass(BytesOf(q), r) && Knows(r, s, phone) && OnlyNumber(r, s, phone)
    ensures BytesOf(Arrivals(ReadEvents(q, s, r))) == VoiceOf(BytesOf(q), phone) && Unhandled(q, r) == []
    decreases |q|
  {
    hide Arrivals, TcpVerdict, PacketEvents, IsVoiceOf, OnlyNumber, VoiceOf;
    NoArrivals();
    if q == [] {
      NoBytes();
      NoVoices(phone);
    } else {
      var first, rest := q[0].bytes, q[1..];
      assert BytesOf(q) == [first] + BytesOf(rest) && BytesOf(q)[0] == first;
      assert AllPass(BytesOf(rest), r) by {
        assert forall i :: 0 <= i < |rest| ==> BytesOf(rest)[i] == BytesOf(q)[i + 1];
      }
      DataLong(first, r);
      VoiceVerdict(first, s, phone, r);
      QueueArrives(rest, s, phone, r);
      VoiceOfJoin([first], BytesOf(rest), phone);
      VoiceOfOne(first, phone);
      assert Passes(first, r);
      var voices := VoiceOf(BytesOf(rest), phone);
      assert [] + voices == voices;
      if TcpVerdict(first, r).Data? {
        var t := TcpVerdict(first, r).session;
        PacketArrivals(q[0], t, s, r);
        ArrivalsJoin(PacketEvents(q[0], t, s, r), ReadEvents(rest, s, r));
        BytesJoin(Arrivals(PacketEvents(q[0], t, s, r)), Arrivals(ReadEvents(rest, s, r)));
        NoBytes();
      }
    }
  }

  lemma NoVoices(phone: seq<byte>)
    ensures VoiceOf([], phone) == []
  {
  }

  lemma VoiceOfOne(p: seq<byte>, phone: seq<byte>)
    ensures VoiceOf([p], phone) == if IsVoiceOf(p, phone) then [p] else []
  {
    hide IsVoiceOf;
    NoVoices(phone);
    assert [p][..0] == [];
  }

  lemma FoundSoFar(chunks: seq<seq<byte>>, payloads: seq<seq<byte>>) returns (j: nat)
    requires NeverOverfull(chunks) && Joined(chunks) <= Framed(payloads)
    requires AllMarkerFree(payloads) && forall i :: 0 <= i < |payloads| ==> 0 < |payloads[i]| <= VOICE_DATA_SIZE
    ensures j <= |payloads| && PutAll(chunks, VOICE_DATA_SIZE).packets == payloads[..j]
    ensures Joined(chunks) == Framed(payloads) ==> j == |payloads|
  {
    hide NeverOverfull, Framed, AllMarkerFree, Tokens, Joined, PutAll;
    AnyChunking(chunks, VOICE_DATA_SIZE);
    j := FramesPrefix(payloads, Joined(chunks));
    assert AllStored(payloads[..j], VOICE_DATA_SIZE) == payloads[..j];
  }

  /** The packets that one more chunk brings are among the payloads. */
  lemma NewPass(before: seq<seq<byte>>, chunk: seq<byte>, payloads: seq<seq<byte>>, r: Registry)
    requires NeverOverfull(before + [chunk]) && AllPass(payloads, r)
    requires AllMarkerFree(payloads) && forall i :: 0 <= i < |payloads| ==> 0 < |payloads[i]| <= VOICE_DATA_SIZE
    requires Joined(before + [chunk]) <= Framed(payloads)
    ensures AllPass(PutAll(before, VOICE_DATA_SIZE).(packets := []).Put(chunk, VOICE_DATA_SIZE).packets, r)
  {
    hide Passes, Tokenizer.Put, NeverOverfull, Framed, AllMarkerFree, PutAll, Joined;
    var t := PutAll(before, VOICE_DATA_SIZE).(packets := []);
    NextPut(before, chunk, t);
    var j := FoundSoFar(before + [chunk], payloads);
    var olds, news := PutAll(before, VOICE_DATA_SIZE).packets, t.Put(chunk, VOICE_DATA_SIZE).packets;
    assert olds + news == payloads[..j];
    forall i | 0 <= i < |news|
      ensures Passes(news[i], r)
    {
      assert news[i] == (olds + news)[|olds| + i] == payloads[|olds| + i];
    }
  }

  /**
    If no packet of the stream ends a read, the session is registered and the pool suffices, then of the packets found
    exactly the session's voice arrives in its list.
   */
  lemma {:induction false} AllArrive(m: Memory, steps: seq<Step>, c: Place, s: int, sessions: set<int>, phone: seq<byte>, payloads: seq<seq<byte>>)
    requires Ready(m, sessions) && AllAllowed(steps, sessions) && s in sessions
    requires Streaming(m, steps, c, sessions, payloads) && OnlyFrom(m, steps, c, s, sessions) && OneNumber(steps, s, phone)
    requires Ample(m, steps, c, sessions) && Serving(steps, c, s, phone, payloads)
    ensures var now, t := AfterSteps(m, steps, sessions), PutAll(Chunks(m, steps, c, sessions), VOICE_DATA_SIZE);
            && c in now.at && now.at[c] == [] && BytesOf(Arrivals(RunEvents(m, steps, s, sessions))) == VoiceOf(t.packets, phone)
  {
    hide Ready, Step.Allowed, After, ChunkOf, Tokenizer.Put, Streaming, StepEvents, Silent, Subsequence, Arrivals, BytesOf, VoiceOf;
    hide Knows, AllPass, OnlyNumber, Handles, Reaches;
    NoArrivals();
    NoBytes();
    NoVoices(phone);
    StreamingStart(m, steps, c, sessions, payloads);
    if steps == [] {
    } else {
      var front, last := steps[..|steps| - 1], steps[|steps| - 1];
      StreamingBefore(m, steps, c, sessions, payloads);
      AllArrive(m, front, c, s, sessions, phone, payloads);
      ArrivedWasFound(m, front, c, s, sessions, payloads);
      HeldLittle(m, front, c, sessions, payloads);
      HeldLittle(m, steps, c, sessions, payloads);
      StreamingFrames(m, steps, c, sessions, payloads);
      AllArriveNext(m, front, last, c, s, sessions, phone, payloads);
    }
  }

  lemma StreamingFrames(m: Memory, steps: seq<Step>, c: Place, sessions: set<int>, payloads: seq<seq<byte>>)
    requires Ready(m, sessions) && AllAllowed(steps, sessions) && Streaming(m, steps, c, sessions, payloads)
    ensures AllMarkerFree(payloads) && (forall i :: 0 <= i < |payloads| ==> 0 < |payloads[i]| <= VOICE_DATA_SIZE)
    ensures Joined(Chunks(m, steps, c, sessions)) <= Framed(payloads)
  {
  }

  lemma AllArriveNext(m: Memory, front: seq<Step>, last: Step, c: Place, s: int, sessions: set<int>, phone: seq<byte>, payloads: seq<seq<byte>>)
    requires Ready(m, sessions) && AllAllowed(front, sessions) && last.Allowed(sessions) && c.VoiceTokens? && s in sessions && last != Close(c)
    requires AllMarkerFree(payloads) && forall i :: 0 <= i < |payloads| ==> 0 < |payloads[i]| <= VOICE_DATA_SIZE
    requires On(last, c) ==> Knows(last.registry, s, phone) && OnlyNumber(last.registry, s, phone) && AllPass(payloads, last.registry)
    requires var now, chunks := AfterSteps(m, front, sessions), Chunks(m, front, c, sessions);
             var t := PutAll(chunks, VOICE_DATA_SIZE);
             && c in now.at && now.at[c] == [] && c in now.streams && now.streams[c] == t.(packets := []) && |t.held| < STORE_SIZE
             && BytesOf(Arrivals(RunEvents(m, front, s, sessions))) == VoiceOf(t.packets, phone)
             && Silent(now, last, c, s)
             && var more := chunks + ChunkOf(now, last, c);
             && NeverOverfull(more) && Joined(more) <= Framed(payloads)
             && (On(last, c) && Reaches(now, c, last.read.input) ==> Handles(now, last.read))
    ensures var now := AfterSteps(m, front, sessions);
            var e, t := After(now, last, sessions), PutAll(Chunks(m, front, c, sessions) + ChunkOf(now, last, c), VOICE_DATA_SIZE);
            && c in e.at && e.at[c] == []
            && BytesOf(Arrivals(RunEvents(m, front, s, sessions) + StepEvents(now, last, s, sessions))) == VoiceOf(t.packets, phone)
  {
    hide Ready, Step.Allowed, TcpRead, UdpRead, SessionRead, SelectorRead, Tokenizer.Put, ReadEvents, DatagramEvents, StepQueue, Handles;
    hide Subsequence, Arrivals, BytesOf, PutAll, Chunks, RunEvents, AfterSteps, Silent, ListOf, Reaches, VoiceOf, Knows, AllPass, OnlyNumber;
    hide NeverOverfull, Framed, AllMarkerFree, Unhandled, Joined;
    var now, before := AfterSteps(m, front, sessions), RunEvents(m, front, s, sessions);
    var events, chunks := StepEvents(now, last, s, sessions), Chunks(m, front, c, sessions);
    NoArrivals();
    ArrivalsJoin(before, events);
    BytesJoin(Arrivals(before), Arrivals(events));
    assert chunks + [] == chunks;
    assert Arrivals(before) + [] == Arrivals(before);
    if !On(last, c) {
      ChannelElsewhere(now, last, c, sessions);
      SilentBringsNone(now, last, c, s, sessions);
    } else {
      OnAllowed(last, c, sessions);
      ChannelRead(now, last.read, s, last.registry, sessions);
      if Reaches(now, c, last.read.input) {
        ReachesInput(now, c, last.read.input);
        var bytes := last.read.input.value;
        NextPut(chunks, bytes, now.streams[c]);
        NewPass(chunks, bytes, payloads, last.registry);
        StepQueueBytes(now, last.read);
        QueueArrives(StepQueue(now, last.read), s, phone, last.registry);
        VoiceOfJoin(PutAll(chunks, VOICE_DATA_SIZE).packets, Found(now, c, bytes), phone);
      }
    }
  }

  lemma StepQueueBytes(m: Memory, read: Read)
    requires Handles(m, read) && m.at[read.place] == []
    ensures BytesOf(StepQueue(m, read)) == Found(m, read.place, read.input.value)
  {
    hide Tokenizer.Put;
    var none: seq<seq<byte>> := [];
    var packets := Found(m, read.place, read.input.value);
    FilledBytes(m.at[read.place], m.free[1..], packets);
    NoBytes();
    assert none + packets == packets;
  }

  /** A voice packet written with a phone number is voice under it, */
  lemma BuiltIsVoice(phone: seq<byte>, v: Voice)
    requires |phone| == PHONE_NUMBER_LENGTH && Sendable(v)
    ensures IsVoiceOf(Build(phone, v), phone)
  {
    hide Build, LengthOk, GetInt;
    BuildParses(phone, v);
    BuiltLength(phone, v);
  }

  /** and passes all checks as voice of the session registered with it. */
  lemma BuiltPasses(phone: seq<byte>, v: Voice, s: int, r: Registry)
    requires |phone| == PHONE_NUMBER_LENGTH && Sendable(v) && Knows(r, s, phone)
    ensures TcpVerdict(Build(phone, v), r) == Data(s)
  {
    hide Build, LengthOk;
    BuiltIsVoice(phone, v);
  }

  lemma BuiltLength(phone: seq<byte>, v: Voice)
    requires |phone| == PHONE_NUMBER_LENGTH && Sendable(v)
    ensures |Build(phone, v)| >= VOICE_MIN_PACKET_SIZE
  {
  }
}
