/**
  Runs of the relay that deliver everything: one side sends voices and addresses frame by frame, the other side asks, with
  packets of its own, before more than ten voices wait; and whatever was said is played.
 */
module RelayRuns {
  import opened Framing
  import opened Options
  import opened Ownership
  import opened PacketTokenizing
  import opened Relays
  import opened ServerLists
  import opened ServerRuns
  import opened ServerSteps
  import opened ServerStreams
  import opened Subsequences
  import opened Traffics
  import opened VoiceDataLists
  import opened VoiceManagers
  import opened VoicePacket

  /** A channel on which nothing is pending. */
  predicate Quiet(m: Memory, c: Place) {
    c.VoiceTokens? && c in m.at && m.at[c] == [] && c in m.streams && m.streams[c] == NEW_STREAM
  }

  /** The read of one frame. */
  function Frame(c: Place, p: seq<byte>): Read {
    Read(c, Some(p + MARKER))
  }

  function FrameBytes(packets: seq<seq<byte>>): (r: seq<seq<byte>>)
    ensures |r| == |packets|
  {
    seq(|packets|, i requires 0 <= i < |packets| => packets[i] + MARKER)
  }

  lemma {:induction false} FramesJoin(packets: seq<seq<byte>>)
    ensures Joined(FrameBytes(packets)) == Framed(packets)
  {
    if packets == [] {
      assert FrameBytes(packets) == [];
    } else {
      var front, last := packets[..|packets| - 1], packets[|packets| - 1];
      FramesJoin(front);
      assert FrameBytes(packets)[..|packets| - 1] == FrameBytes(front);
      FramedLast(front, last);
      assert front + [last] == packets;
    }
  }

  // ---- One frame ----

  /** A frame in a quiet tokenizer is one packet, and leaves it quiet. */
  lemma FrameFound(p: seq<byte>)
    requires Carried(p) && p != []
    ensures NEW_STREAM.Put(p + MARKER, VOICE_DATA_SIZE) == Tokenizer([], 0, [p])
  {
    hide MarkerFree, Find, Tokens;
    var bytes, none: seq<seq<byte>> := p + MARKER, [];
    EmptyStream();
    assert [] + bytes == bytes;
    PutIsTokens(NEW_STREAM, bytes, VOICE_DATA_SIZE);
    PayloadSurvivesExactly(p);
    assert AllStored([p], VOICE_DATA_SIZE) == [p];
    assert none + [p] == [p];
  }

  /** A read of one frame on a quiet channel, as far as the packet loop. */
  lemma FrameRead(m: Memory, c: Place, p: seq<byte>, r: Registry, sessions: set<int>)
    requires Ready(m, sessions) && r.Within(sessions) && Quiet(m, c) && Carried(p) && p != [] && 2 <= |m.free|
    ensures Reaches(m, c, Some(p + MARKER)) && Handles(m, Frame(c, p)) && StepQueue(m, Frame(c, p)) == [Buffer(m.free[1].key, p)]
    ensures var t := AtPackets(m, Frame(c, p));
            && |t.free| == |m.free| - 1 && t.at == m.at[c := [Buffer(m.free[1].key, p)]] && t.offered == m.offered
            && c in t.streams && t.streams[c] == NEW_STREAM && Ready(t, sessions)
            && TcpRead(m, c, Some(p + MARKER), r, sessions) == TcpRun(t, c, [], r, sessions)
  {
    hide Tokenizer.Put, AllData, TcpRun, TcpRead;
    FrameFound(p);
    var none: seq<Buffer> := [];
    var b := Buffer(m.free[1].key, p);
    assert Found(m, c, p + MARKER) == [p];
    assert Filled(m.free[1..], [p]) == [b];
    assert none + [b] == [b];
    AtPacketsIs(m, Frame(c, p), r, sessions);
  }

  /** The packet loop on one voice packet. */
  lemma OnePacket(m: Memory, c: Place, b: DataBuffer, t: int, r: Registry, sessions: set<int>)
    requires Ready(m, sessions) && r.Within(sessions) && c.VoiceTokens? && c in m.at && m.at[c] == [b] && TcpVerdict(b.bytes, r) == Data(t)
    ensures t in sessions && Ready(Popped(m, c), sessions)
    ensures var d := TcpData(Popped(m, c), b, t, r, sessions);
            && TcpRun(m, c, [], r, sessions) == End(Good, d.memory, d.sent)
            && RunForwards(m, c, r, sessions) == PacketForwards(Popped(m, c), b, t, r, sessions)
            && c in d.memory.at && d.memory.at[c] == [] && d.memory.streams == m.streams
  {
    hide Ready, TcpVerdict, TcpData, PacketForwards;
    ReadyPopped(m, c, b, sessions);
    TcpDataReadable(b.bytes, r, sessions);
    DataElsewhere(Popped(m, c), b, t, r, sessions);
    var d := TcpData(Popped(m, c), b, t, r, sessions);
    var none: seq<seq<byte>> := [];
    assert none + d.sent == d.sent;
    assert PacketForwards(Popped(m, c), b, t, r, sessions) + [] == PacketForwards(Popped(m, c), b, t, r, sessions);
    assert d.memory.at[c] == [];
  }

  lemma OneEvents(b: DataBuffer, t: int, s: int, r: Registry)
    requires TcpVerdict(b.bytes, r) == Data(t)
    ensures ReadEvents([b], s, r) == PacketEvents(b, t, s, r)
  {
    hide TcpVerdict;
    NoEvents(s, r);
    assert [b][1..] == [];
    assert PacketEvents(b, t, s, r) + [] == PacketEvents(b, t, s, r);
  }

  /** The list of `s` while a packet is taken from a channel. */
  lemma SameListAt(m: Memory, at: Memory, c: Place, b: Buffer, s: int, sessions: set<int>)
    requires Ready(m, sessions) && Ready(at, sessions) && s in sessions
    requires c.VoiceTokens? && at.at == m.at[c := [b]] && at.offered == m.offered
    ensures Ready(Popped(at, c), sessions) && Ready(Freed(Popped(at, c), b), sessions)
    ensures ListOf(Popped(at, c), s) == ListOf(Freed(Popped(at, c), b), s) == ListOf(m, s)
    ensures c in Popped(at, c).at && Popped(at, c).at[c] == []
  {
    ReadyPopped(at, c, b, sessions);
  }

  // ---- What it costs the pool ----

  /** The buffers in the pool and in the list of `t`. */
  ghost function Spare(m: Memory, t: int, sessions: set<int>): nat
    requires Ready(m, sessions) && t in sessions
  {
    |m.free| + |ListOf(m, t).list|
  }

  lemma ListedSpare(m: Memory, u: int, b: DataBuffer, t: int, sessions: set<int>)
    requires Ready(m, sessions) && u in sessions && t in sessions
    ensures Ready(Listed(m, u, b), sessions)
    ensures Spare(Listed(m, u, b), t, sessions) >= Spare(m, t, sessions) + if u == t then 1 else 0
    ensures u != t ==> ListOf(Listed(m, u, b), t) == ListOf(m, t)
    ensures |ListOf(m, t).list| <= VOICE_BUFFER_QUEUE_SIZE ==> |ListOf(Listed(m, u, b), t).list| <= VOICE_BUFFER_QUEUE_SIZE
  {
    hide AllData, SeqOf;
    ListedStep(m, b, u, t, sessions);
  }

  lemma PolledSpare(m: Memory, p: int, t: int, sessions: set<int>)
    requires Ready(m, sessions) && p in sessions && t in sessions
    ensures Ready(Polled(m, p, RELAY_LIMIT + 1), sessions)
    ensures var e := Polled(m, p, RELAY_LIMIT + 1);
            && Spare(e, t, sessions) >= Spare(m, t, sessions) && |ListOf(e, t).list| <= |ListOf(m, t).list|
            && (p != t ==> Spare(e, t, sessions) == Spare(m, t, sessions) + AtMost(|ListOf(m, p).list|, RELAY_LIMIT + 1))
  {
    hide AllData;
    PolledStep(m, p, t, sessions);
    ListLength(m, p, sessions);
  }

  function GetIntOf(p: seq<byte>): int {
    if |p| >= SEQ_INDEX + 4 then GetInt(p, SEQ_INDEX) else 0
  }

  /** One voice of `s` is read: it is listed, and costs one buffer. */
  lemma OneVoice(m: Memory, c: Place, p: seq<byte>, s: int, t: int, r: Registry, sessions: set<int>) returns (b: DataBuffer)
    requires Ready(m, sessions) && r.Within(sessions) && Quiet(m, c) && Carried(p) && 2 <= |m.free| && s in sessions && t in sessions
    requires TcpVerdict(p, r) == Data(s) && s != t && (s in r.peers ==> r.peers[s] != s)
    requires |ListOf(m, s).list| < VOICE_BUFFER_QUEUE_SIZE && GetIntOf(p) !in ListOf(m, s).seen
    ensures b.bytes == p && StepQueue(m, Frame(c, p)) == [b] && ReadEvents([b], s, r) == [Arrive(b)]
    ensures Reaches(m, c, Some(p + MARKER)) && Handles(m, Frame(c, p))
    ensures var e := TcpRead(m, c, Some(p + MARKER), r, sessions).memory;
            && Quiet(e, c) && ListOf(e, s) == DataList(ListOf(m, s).list + [b], ListOf(m, s).seen + {SeqOf(b)})
            && Spare(e, t, sessions) + 1 >= Spare(m, t, sessions) && |ListOf(e, t).list| <= |ListOf(m, t).list|
  {
    hide AllData, TcpRun, TcpRead, TcpVerdict, Carried, GetInt, Spare, Listed, Polled;
    DataLong(p, r);
    FrameRead(m, c, p, r, sessions);
    b := Buffer(m.free[1].key, p);
    var at := AtPackets(m, Frame(c, p));
    OnePacket(at, c, b, s, r, sessions);
    OneEvents(b, s, s, r);
    SameListAt(m, at, c, b, s, sessions);
    SameListAt(m, at, c, b, t, sessions);
    SpareAt(m, at, c, t, sessions);
    var rest := Popped(at, c);
    ListedNew(rest, s, b, sessions);
    ListedSpare(rest, s, b, t, sessions);
    if s in r.peers {
      PolledStep(Listed(rest, s, b), r.peers[s], s, sessions);
      PolledSpare(Listed(rest, s, b), r.peers[s], t, sessions);
    }
  }

  lemma SpareAt(m: Memory, at: Memory, c: Place, t: int, sessions: set<int>)
    requires Ready(m, sessions) && t in sessions && c in at.at && at.at[c] != [] && Ready(Popped(at, c), sessions)
    requires ListOf(Popped(at, c), t) == ListOf(m, t) && |at.free| == |m.free| - 1
    ensures Spare(Popped(at, c), t, sessions) == Spare(m, t, sessions) - 1
  {
  }

  /** A new number is listed at the end. */
  lemma ListedNew(m: Memory, s: int, b: DataBuffer, sessions: set<int>)
    requires Ready(m, sessions) && s in sessions
    requires |ListOf(m, s).list| < VOICE_BUFFER_QUEUE_SIZE && SeqOf(b) !in ListOf(m, s).seen
    ensures Ready(Listed(m, s, b), sessions)
    ensures ListOf(Listed(m, s, b), s) == DataList(ListOf(m, s).list + [b], ListOf(m, s).seen + {SeqOf(b)})
  {
    hide SeqOf;
    ListedReady(m, s, b, sessions);
  }

  /** An address, or a packet of an unknown type: it goes back to the pool. */
  lemma OneOther(m: Memory, c: Place, p: seq<byte>, s: int, t: int, r: Registry, sessions: set<int>)
    requires Ready(m, sessions) && r.Within(sessions) && Quiet(m, c) && Carried(p) && p != [] && 2 <= |m.free| && s in sessions && t in sessions
    requires TcpVerdict(p, r).Addresses? || TcpVerdict(p, r).Unknown?
    ensures ReadEvents(StepQueue(m, Frame(c, p)), s, r) == [] && Reaches(m, c, Some(p + MARKER)) && Handles(m, Frame(c, p))
    ensures var e := TcpRead(m, c, Some(p + MARKER), r, sessions).memory;
            && Quiet(e, c) && ListOf(e, s) == ListOf(m, s) && ListOf(e, t) == ListOf(m, t)
            && Spare(e, t, sessions) >= Spare(m, t, sessions)
  {
    hide AllData, TcpRead, TcpVerdict, Carried;
    FrameRead(m, c, p, r, sessions);
    var b, at := Buffer(m.free[1].key, p), AtPackets(m, Frame(c, p));
    SameListAt(m, at, c, b, s, sessions);
    SameListAt(m, at, c, b, t, sessions);
    assert [b][1..] == [];
    assert TcpRun(at, c, [], r, sessions).memory == Freed(Popped(at, c), b) by {
      ReadyPopped(at, c, b, sessions);
    }
    NoEvents(s, r);
  }

  /** The other side asks: its own packet makes the server poll the list, */
  lemma OneAsk(m: Memory, c: Place, ask: seq<byte>, s: int, t: int, r: Registry, sessions: set<int>) returns (b: DataBuffer)
    requires Ready(m, sessions) && r.Within(sessions) && Quiet(m, c) && Carried(ask) && 2 <= |m.free|
    requires TcpVerdict(ask, r) == Data(t) && t != s && t in r.peers && r.peers[t] == s
    ensures StepQueue(m, Frame(c, ask)) == [b] && ReadEvents([b], s, r) == Takes(RELAY_LIMIT + 1)
    ensures NoneFrom([b], s, r) && AllCalling([b], s, r)
  {
    hide AllData, TcpRun, TcpRead, TcpVerdict, Carried, Takes, ReadEvents;
    DataLong(ask, r);
    FrameRead(m, c, ask, r, sessions);
    b := Buffer(m.free[1].key, ask);
    OneEvents(b, t, s, r);
    AskEvents(b, t, s, r);
  }

  /** and send it all that is listed, up to ten packets. */
  lemma AskForwards(m: Memory, c: Place, ask: seq<byte>, s: int, t: int, r: Registry, sessions: set<int>)
    requires Ready(m, sessions) && r.Within(sessions) && Quiet(m, c) && Carried(ask) && 2 <= |m.free| && s in sessions && t in sessions
    requires TcpVerdict(ask, r) == Data(t) && t != s && t in r.peers && r.peers[t] == s && |ListOf(m, s).list| <= RELAY_LIMIT
    ensures StepForwards(m, Frame(c, ask), r, sessions) == ListOf(m, s).list
  {
    hide AllData, TcpRun, TcpRead, TcpVerdict, Carried, TcpData, PacketForwards, RunForwards, ListOf;
    DataLong(ask, r);
    FrameRead(m, c, ask, r, sessions);
    var b, at := Buffer(m.free[1].key, ask), AtPackets(m, Frame(c, ask));
    OnePacket(at, c, b, t, r, sessions);
    SameListAt(m, at, c, b, s, sessions);
    AllForwarded(Popped(at, c), b, t, s, r, sessions);
  }

  /** The pool and the other side's list after that. */
  lemma AskLeaves(m: Memory, c: Place, ask: seq<byte>, s: int, t: int, r: Registry, sessions: set<int>)
    requires Ready(m, sessions) && r.Within(sessions) && Quiet(m, c) && Carried(ask) && 2 <= |m.free| && s in sessions && t in sessions
    requires TcpVerdict(ask, r) == Data(t) && t != s && t in r.peers && r.peers[t] == s
    requires |ListOf(m, s).list| <= RELAY_LIMIT && |ListOf(m, t).list| <= VOICE_BUFFER_QUEUE_SIZE
    ensures var e := TcpRead(m, c, Some(ask + MARKER), r, sessions).memory;
            && Quiet(e, c) && |ListOf(e, t).list| <= VOICE_BUFFER_QUEUE_SIZE
            && Spare(e, t, sessions) >= Spare(m, t, sessions) + |ListOf(m, s).list|
  {
    hide AllData, TcpRun, TcpRead, TcpVerdict, Carried, GetInt, TcpData, PacketForwards, RunForwards, ListOf, Spare;
    DataLong(ask, r);
    FrameRead(m, c, ask, r, sessions);
    var b, at := Buffer(m.free[1].key, ask), AtPackets(m, Frame(c, ask));
    OnePacket(at, c, b, t, r, sessions);
    SameListAt(m, at, c, b, s, sessions);
    SameListAt(m, at, c, b, t, sessions);
    SpareAt(m, at, c, t, sessions);
    AskSpare(Popped(at, c), b, s, t, r, sessions);
  }

  lemma AskSpare(m: Memory, b: DataBuffer, s: int, t: int, r: Registry, sessions: set<int>)
    requires Ready(m, sessions) && r.Within(sessions) && s in sessions && t in sessions && t != s && t in r.peers && r.peers[t] == s
    requires |ListOf(m, s).list| <= RELAY_LIMIT && |ListOf(m, t).list| <= VOICE_BUFFER_QUEUE_SIZE
    ensures var e := TcpData(m, b, t, r, sessions).memory;
            && |ListOf(e, t).list| <= VOICE_BUFFER_QUEUE_SIZE
            && Spare(e, t, sessions) >= Spare(m, t, sessions) + 1 + |ListOf(m, s).list|
  {
    hide AllData, Listed, Polled, ListOf, Spare, SeqOf, Relayed;
    ListedSpare(m, t, b, t, sessions);
    ListedSpare(m, t, b, s, sessions);
    PolledSpare(Listed(m, t, b), s, t, sessions);
  }

  lemma AskEvents(b: DataBuffer, t: int, s: int, r: Registry)
    requires t != s && t in r.peers && r.peers[t] == s
    ensures PacketEvents(b, t, s, r) == Takes(RELAY_LIMIT + 1)
  {
    hide Takes;
    var none: seq<Event> := [];
    assert none + Takes(RELAY_LIMIT + 1) == Takes(RELAY_LIMIT + 1);
  }

  lemma AllForwarded(m: Memory, b: DataBuffer, t: int, s: int, r: Registry, sessions: set<int>)
    requires Ready(m, sessions) && r.Within(sessions) && s in sessions && t in sessions && t != s && t in r.peers && r.peers[t] == s
    requires |ListOf(m, s).list| <= RELAY_LIMIT
    ensures PacketForwards(m, b, t, r, sessions) == ListOf(m, s).list
  {
    hide AllData, SeqOf, Listed, ListOf;
    ListThere(m, s, sessions);
    ListedStep(m, b, t, s, sessions);
    ListedList(m, b, t, s, sessions);
    var list: seq<Buffer> := ListOf(m, s).list;
    assert list[..|list|] == list;
  }

  lemma ListThere(m: Memory, s: int, sessions: set<int>)
    requires Ready(m, sessions) && s in sessions
    ensures VoiceList(s) in m.at && s in m.offered && AllData(m.at[VoiceList(s)])
  {
  }

  // ---- Any number of frames ----

  /** What the sides send, a frame at a time: one says a packet, the other asks with a packet of its own. */
  datatype Move = Say(packet: seq<byte>) | Ask(packet: seq<byte>)

  function StepOf(move: Move, from: Place, to: Place, r: Registry): Step {
    Tcp(Frame(if move.Say? then from else to, move.packet), r)
  }

  function Steps(moves: seq<Move>, from: Place, to: Place, r: Registry): (steps: seq<Step>)
    ensures |steps| == |moves|
  {
    seq(|moves|, i requires 0 <= i < |moves| => StepOf(moves[i], from, to, r))
  }

  /** All that is said, */
  function Said(moves: seq<Move>): seq<seq<byte>> {
    if moves == [] then []
    else
      var front, last := moves[..|moves| - 1], moves[|moves| - 1];
      Said(front) + (if last.Say? then [last.packet] else [])
  }

  /** and how many voices of it wait since the other side asked last. */
  function Waiting(moves: seq<Move>, phone: seq<byte>): nat {
    if moves == [] || moves[|moves| - 1].Ask? then 0
    else Waiting(moves[..|moves| - 1], phone) + (if IsVoiceOf(moves[|moves| - 1].packet, phone) then 1 else 0)
  }

  /** The other side never lets more than ten voices wait. */
  predicate Paced(moves: seq<Move>, phone: seq<byte>) {
    moves == [] || (Paced(moves[..|moves| - 1], phone) && Waiting(moves, phone) <= RELAY_LIMIT)
  }

  /** One side says its own voices, addresses, or packets of other types; the other side's packets are its voice. */
  ghost predicate Fair(move: Move, s: int, t: int, r: Registry) {
    var v := TcpVerdict(move.packet, r);
    Carried(move.packet) && if move.Say? then v == Data(s) || v.Addresses? || v.Unknown? else v == Data(t)
  }

  ghost predicate AllFair(moves: seq<Move>, s: int, t: int, r: Registry) {
    forall i :: 0 <= i < |moves| ==> Fair(moves[i], s, t, r)
  }

  /** What a server needs to be in for this: enough buffers for ten voices, a full list of the other side, and two reads. */
  ghost predicate Prepared(m: Memory, from: Place, to: Place, s: int, t: int, r: Registry, sessions: set<int>, phone: seq<byte>) {
    && Ready(m, sessions) && r.Within(sessions) && s in sessions && t in sessions && s != t
    && Knows(r, s, phone) && OnlyNumber(r, s, phone) && t in r.peers && r.peers[t] == s && (s in r.peers ==> r.peers[s] != s)
    && from != to && Quiet(m, from) && Quiet(m, to) && ListOf(m, s) == DataList([], {})
    && |ListOf(m, t).list| <= VOICE_BUFFER_QUEUE_SIZE && RELAY_LIMIT + VOICE_BUFFER_QUEUE_SIZE + 2 <= |m.free|
  }

  ghost predicate NumbersOf(seen: set<int>, packets: seq<seq<byte>>) {
    forall x :: x in seen ==> exists i :: 0 <= i < |packets| && x == GetIntOf(packets[i])
  }

  ghost predicate EachDelivered(gone: seq<Gone>) {
    forall i :: 0 <= i < |gone| ==> gone[i].delivered
  }

  /** The server after the steps: what it holds, */
  ghost predicate Holding(m: Memory, now: Memory, from: Place, to: Place, s: int, t: int, sessions: set<int>, q: seq<DataBuffer>, said: seq<seq<byte>>)
    requires Ready(m, sessions) && Ready(now, sessions) && s in sessions && t in sessions
  {
    && Quiet(now, from) && Quiet(now, to)
    && ListOf(now, s).list == q && NumbersOf(ListOf(now, s).seen, said)
    && Spare(now, t, sessions) + |q| >= |m.free| && |ListOf(now, t).list| <= VOICE_BUFFER_QUEUE_SIZE
  }

  /** what it has done, */
  ghost predicate Passed(m: Memory, steps: seq<Step>, to: Place, s: int, sessions: set<int>, q: seq<DataBuffer>, said: seq<seq<byte>>)
    requires Ready(m, sessions) && AllAllowed(steps, sessions) && s in sessions
  {
    var h := Run(RunEvents(m, steps, s, sessions), VOICE_BUFFER_QUEUE_SIZE);
    && h.now == ListOf(AfterSteps(m, steps, sessions), s) && EachDelivered(h.gone)
    && BytesOf(Delivered(h.gone)) + BytesOf(q) == said && Forwarded(m, steps, to, sessions) == Delivered(h.gone)
  }

  /** and how it has come to that. */
  ghost predicate Led(m: Memory, steps: seq<Step>, from: Place, to: Place, s: int, sessions: set<int>, said: seq<seq<byte>>)
    requires Ready(m, sessions) && AllAllowed(steps, sessions)
  {
    && Chunks(m, steps, from, sessions) == FrameBytes(said)
    && OnlyFrom(m, steps, from, s, sessions) && CallersOn(m, steps, to, s, sessions) && Ample(m, steps, from, sessions)
  }

  lemma StepsNext(moves: seq<Move>, move: Move, from: Place, to: Place, r: Registry)
    ensures Steps(moves + [move], from, to, r) == Steps(moves, from, to, r) + [StepOf(move, from, to, r)]
    ensures (moves + [move])[..|moves|] == moves
  {
  }

  /** What one more step adds to a run. */
  lemma OneMore(m: Memory, steps: seq<Step>, step: Step, from: Place, to: Place, s: int, sessions: set<int>)
    requires Ready(m, sessions) && AllAllowed(steps, sessions) && step.Allowed(sessions) && s in sessions
    ensures var all, now := steps + [step], AfterSteps(m, steps, sessions);
            && AllAllowed(all, sessions) && AfterSteps(m, all, sessions) == After(now, step, sessions)
            && RunEvents(m, all, s, sessions) == RunEvents(m, steps, s, sessions) + StepEvents(now, step, s, sessions)
            && Forwarded(m, all, to, sessions)
               == Forwarded(m, steps, to, sessions) + (if On(step, to) then StepForwards(now, step.read, step.registry, sessions) else [])
            && Chunks(m, all, from, sessions) == Chunks(m, steps, from, sessions) + ChunkOf(now, step, from)
            && (OnlyFrom(m, steps, from, s, sessions) && Silent(now, step, from, s) ==> OnlyFrom(m, all, from, s, sessions))
            && (CallersOn(m, steps, to, s, sessions) && (On(step, to) ==> AllCalling(StepQueue(now, step.read), s, step.registry))
                ==> CallersOn(m, all, to, s, sessions))
            && (Ample(m, steps, from, sessions) && (On(step, from) && Reaches(now, from, step.read.input) ==> Handles(now, step.read))
                ==> Ample(m, all, from, sessions))
  {
    hide Ready, After, StepEvents, StepForwards, ChunkOf, Silent, StepQueue, Handles, Reaches, AllCalling, Step.Allowed;
    var all := steps + [step];
    assert all[..|all| - 1] == steps && all[|all| - 1] == step;
  }

  lemma NumberIs(b: DataBuffer)
    ensures GetIntOf(b.bytes) == SeqOf(b)
  {
  }

  lemma ArriveNew(h: History, b: DataBuffer)
    requires SeqOf(b) !in h.now.seen && |h.now.list| < VOICE_BUFFER_QUEUE_SIZE
    ensures h.Next(Arrive(b), VOICE_BUFFER_QUEUE_SIZE) == History(DataList(h.now.list + [b], h.now.seen + {SeqOf(b)}), h.gone)
  {
    hide SeqOf;
    assert h.gone + [] == h.gone;
  }

  lemma NumbersGrow(seen: set<int>, packets: seq<seq<byte>>, p: seq<byte>)
    requires NumbersOf(seen, packets)
    ensures NumbersOf(seen + {GetIntOf(p)}, packets + [p])
  {
    hide GetIntOf;
    forall x | x in seen + {GetIntOf(p)}
      ensures exists i :: 0 <= i < |packets + [p]| && x == GetIntOf((packets + [p])[i])
    {
      if x == GetIntOf(p) {
        assert (packets + [p])[|packets|] == p;
      } else {
        var i :| 0 <= i < |packets| && x == GetIntOf(packets[i]);
        assert (packets + [p])[i] == packets[i];
      }
    }
  }

  lemma {:induction false} TakesGone(h: History, n: nat)
    requires EachDelivered(h.gone)
    ensures EachDelivered(Continue(h, Takes(n)).gone)
    decreases n
  {
    if n == 0 {
      assert Takes(0) == [] && Continue(h, []) == h;
    } else {
      assert Takes(n)[1..] == Takes(n - 1) && Takes(n)[0] == Take;
      var next := h.Next(Take, VOICE_BUFFER_QUEUE_SIZE);
      TakeGone(h);
      TakesGone(next, n - 1);
      assert Continue(h, Takes(n)) == Continue(next, Takes(n - 1));
    }
  }

  lemma TakeGone(h: History)
    requires EachDelivered(h.gone)
    ensures EachDelivered(h.Next(Take, VOICE_BUFFER_QUEUE_SIZE).gone)
  {
  }

  /** Two buffers are always there. */
  lemma EnoughFree(m: Memory, now: Memory, from: Place, to: Place, s: int, t: int, sessions: set<int>, q: seq<DataBuffer>, said: seq<seq<byte>>)
    requires Ready(m, sessions) && Ready(now, sessions) && s in sessions && t in sessions && Holding(m, now, from, to, s, t, sessions, q, said)
    requires RELAY_LIMIT + VOICE_BUFFER_QUEUE_SIZE + 2 <= |m.free| && |q| <= RELAY_LIMIT
    ensures 2 <= |now.free|
  {
    hide Ready, ListOf, NumbersOf, Quiet;
  }

  lemma FrameBytesNext(packets: seq<seq<byte>>, p: seq<byte>)
    ensures FrameBytes(packets + [p]) == FrameBytes(packets) + [p + MARKER]
  {
  }

  /** A frame on the speaking side, as far as the run is concerned. */
  lemma SayLeads(m: Memory, steps: seq<Step>, from: Place, to: Place, s: int, r: Registry, sessions: set<int>, said: seq<seq<byte>>, p: seq<byte>)
    requires Ready(m, sessions) && AllAllowed(steps, sessions) && r.Within(sessions) && s in sessions && from != to && from.VoiceTokens?
    requires Led(m, steps, from, to, s, sessions, said)
    requires var now := AfterSteps(m, steps, sessions); Reaches(now, from, Some(p + MARKER)) && Handles(now, Frame(from, p))
    ensures var all, now := steps + [Tcp(Frame(from, p), r)], AfterSteps(m, steps, sessions);
            && AllAllowed(all, sessions) && Led(m, all, from, to, s, sessions, said + [p])
            && AfterSteps(m, all, sessions) == TcpRead(now, from, Some(p + MARKER), r, sessions).memory
            && RunEvents(m, all, s, sessions) == RunEvents(m, steps, s, sessions) + ReadEvents(StepQueue(now, Frame(from, p)), s, r)
            && Forwarded(m, all, to, sessions) == Forwarded(m, steps, to, sessions)
  {
    hide Ready, TcpRead, StepQueue, Handles, Reaches, ReadEvents, StepForwards, AllAllowed, FrameBytes;
    hide AfterSteps, RunEvents, Chunks, OnlyFrom, CallersOn, Ample, Forwarded;
    OneMore(m, steps, Tcp(Frame(from, p), r), from, to, s, sessions);
    FrameBytesNext(said, p);
    assert Forwarded(m, steps, to, sessions) + [] == Forwarded(m, steps, to, sessions);
  }

  /** A voice more. */
  lemma SayVoice(m: Memory, steps: seq<Step>, from: Place, to: Place, s: int, t: int, r: Registry, sessions: set<int>, phone: seq<byte>,
                 said: seq<seq<byte>>, voices: seq<seq<byte>>, q: seq<DataBuffer>, p: seq<byte>) returns (q': seq<DataBuffer>)
    requires Prepared(m, from, to, s, t, r, sessions, phone) && AllAllowed(steps, sessions)
    requires Holding(m, AfterSteps(m, steps, sessions), from, to, s, t, sessions, q, voices)
    requires Passed(m, steps, to, s, sessions, q, voices) && Led(m, steps, from, to, s, sessions, said)
    requires |q| < RELAY_LIMIT && Carried(p) && TcpVerdict(p, r) == Data(s)
    requires forall i :: 0 <= i < |voices| ==> GetIntOf(voices[i]) != GetIntOf(p)
    ensures var all := steps + [Tcp(Frame(from, p), r)];
            && AllAllowed(all, sessions) && |q'| == |q| + 1
            && Holding(m, AfterSteps(m, all, sessions), from, to, s, t, sessions, q', voices + [p])
            && Passed(m, all, to, s, sessions, q', voices + [p]) && Led(m, all, from, to, s, sessions, said + [p])
  {
    hide Ready, TcpVerdict, Carried, TcpRead, ListOf, StepQueue, Handles, Reaches, Run, GetIntOf, Spare, ReadEvents, Delivered, BytesOf, Led;
    hide AfterSteps, RunEvents, Forwarded, EachDelivered, NumbersOf, OnlyNumber, Knows, AllAllowed;
    var now, last, events := AfterSteps(m, steps, sessions), Tcp(Frame(from, p), r), RunEvents(m, steps, s, sessions);
    var h := Run(events, VOICE_BUFFER_QUEUE_SIZE);
    EnoughFree(m, now, from, to, s, t, sessions, q, voices);
    ListThere(now, s, sessions);
    NewNumber(ListOf(now, s).seen, voices, p);
    var b := OneVoice(now, from, p, s, t, r, sessions);
    SayLeads(m, steps, from, to, s, r, sessions, said, p);
    ChannelElsewhere(now, last, to, sessions);
    q' := q + [b];
    BytesNext(BytesOf(Delivered(h.gone)), q, b);
    NumberIs(b);
    NumbersGrow(ListOf(now, s).seen, voices, p);
    RunStep(events, Arrive(b));
    ArriveNew(h, b);
  }

  lemma BytesNext(before: seq<seq<byte>>, q: seq<DataBuffer>, b: DataBuffer)
    ensures before + BytesOf(q + [b]) == before + BytesOf(q) + [b.bytes]
  {
    BytesJoin(q, [b]);
  }

  lemma NewNumber(seen: set<int>, packets: seq<seq<byte>>, p: seq<byte>)
    requires NumbersOf(seen, packets) && forall i :: 0 <= i < |packets| ==> GetIntOf(packets[i]) != GetIntOf(p)
    ensures GetIntOf(p) !in seen
  {
    hide GetIntOf;
  }

  /** Something else said. */
  lemma SayOther(m: Memory, steps: seq<Step>, from: Place, to: Place, s: int, t: int, r: Registry, sessions: set<int>, phone: seq<byte>,
                 said: seq<seq<byte>>, voices: seq<seq<byte>>, q: seq<DataBuffer>, p: seq<byte>)
    requires Prepared(m, from, to, s, t, r, sessions, phone) && AllAllowed(steps, sessions)
    requires Holding(m, AfterSteps(m, steps, sessions), from, to, s, t, sessions, q, voices)
    requires Passed(m, steps, to, s, sessions, q, voices) && Led(m, steps, from, to, s, sessions, said)
    requires |q| <= RELAY_LIMIT && Carried(p) && p != [] && (TcpVerdict(p, r).Addresses? || TcpVerdict(p, r).Unknown?)
    ensures var all := steps + [Tcp(Frame(from, p), r)];
            && AllAllowed(all, sessions)
            && Holding(m, AfterSteps(m, all, sessions), from, to, s, t, sessions, q, voices)
            && Passed(m, all, to, s, sessions, q, voices) && Led(m, all, from, to, s, sessions, said + [p])
  {
    hide Ready, TcpVerdict, Carried, TcpRead, ListOf, StepQueue, Handles, Reaches, Run, Spare, ReadEvents, Delivered, BytesOf, Led;
    hide AfterSteps, RunEvents, Forwarded, EachDelivered, NumbersOf, OnlyNumber, Knows, AllAllowed;
    var now, last, events := AfterSteps(m, steps, sessions), Tcp(Frame(from, p), r), RunEvents(m, steps, s, sessions);
    EnoughFree(m, now, from, to, s, t, sessions, q, voices);
    OneOther(now, from, p, s, t, r, sessions);
    SayLeads(m, steps, from, to, s, r, sessions, said, p);
    ChannelElsewhere(now, last, to, sessions);
    assert events + [] == events;
  }

  /** A frame on the asking side, as far as the run is concerned. */
  lemma AskLeads(m: Memory, steps: seq<Step>, from: Place, to: Place, s: int, r: Registry, sessions: set<int>, said: seq<seq<byte>>, ask: seq<byte>)
    requires Ready(m, sessions) && AllAllowed(steps, sessions) && r.Within(sessions) && s in sessions && from != to && to.VoiceTokens?
    requires Led(m, steps, from, to, s, sessions, said)
    requires var q := StepQueue(AfterSteps(m, steps, sessions), Frame(to, ask)); NoneFrom(q, s, r) && AllCalling(q, s, r)
    ensures var all, now := steps + [Tcp(Frame(to, ask), r)], AfterSteps(m, steps, sessions);
            && AllAllowed(all, sessions) && Led(m, all, from, to, s, sessions, said)
            && AfterSteps(m, all, sessions) == TcpRead(now, to, Some(ask + MARKER), r, sessions).memory
            && RunEvents(m, all, s, sessions) == RunEvents(m, steps, s, sessions) + ReadEvents(StepQueue(now, Frame(to, ask)), s, r)
            && Forwarded(m, all, to, sessions) == Forwarded(m, steps, to, sessions) + StepForwards(now, Frame(to, ask), r, sessions)
  {
    hide Ready, TcpRead, StepQueue, Handles, Reaches, ReadEvents, StepForwards, AllAllowed, FrameBytes, NoneFrom, AllCalling;
    hide AfterSteps, RunEvents, Chunks, OnlyFrom, CallersOn, Ample, Forwarded;
    OneMore(m, steps, Tcp(Frame(to, ask), r), from, to, s, sessions);
    assert Chunks(m, steps, from, sessions) + [] == Chunks(m, steps, from, sessions);
  }

  /** The other side asks, and nothing waits any more. */
  lemma AskAll(m: Memory, steps: seq<Step>, from: Place, to: Place, s: int, t: int, r: Registry, sessions: set<int>, phone: seq<byte>,
               said: seq<seq<byte>>, voices: seq<seq<byte>>, q: seq<DataBuffer>, ask: seq<byte>)
    requires Prepared(m, from, to, s, t, r, sessions, phone) && AllAllowed(steps, sessions)
    requires Holding(m, AfterSteps(m, steps, sessions), from, to, s, t, sessions, q, voices)
    requires Passed(m, steps, to, s, sessions, q, voices) && Led(m, steps, from, to, s, sessions, said)
    requires |q| <= RELAY_LIMIT && Carried(ask) && TcpVerdict(ask, r) == Data(t)
    ensures var all := steps + [Tcp(Frame(to, ask), r)];
            && AllAllowed(all, sessions)
            && Holding(m, AfterSteps(m, all, sessions), from, to, s, t, sessions, [], voices)
            && Passed(m, all, to, s, sessions, [], voices) && Led(m, all, from, to, s, sessions, said)
  {
    hide Ready, TcpVerdict, Carried, TcpRead, ListOf, StepQueue, Handles, Reaches, Run, Spare, ReadEvents, Delivered, BytesOf, Led;
    hide AfterSteps, RunEvents, Forwarded, EachDelivered, NumbersOf, OnlyNumber, Knows, AllAllowed, StepForwards, Takes, Continue, NoneFrom, AllCalling;
    var now, last, events := AfterSteps(m, steps, sessions), Tcp(Frame(to, ask), r), RunEvents(m, steps, s, sessions);
    var h := Run(events, VOICE_BUFFER_QUEUE_SIZE);
    EnoughFree(m, now, from, to, s, t, sessions, q, voices);
    var b := OneAsk(now, to, ask, s, t, r, sessions);
    AskForwards(now, to, ask, s, t, r, sessions);
    AskLeaves(now, to, ask, s, t, r, sessions);
    AskLeads(m, steps, from, to, s, r, sessions, said, ask);
    ChannelElsewhere(now, last, from, sessions);
    TcpIsRun(now, Frame(to, ask), s, r, sessions, h);
    ContinueRun(events, Takes(RELAY_LIMIT + 1));
    TakesPoll(h, RELAY_LIMIT + 1);
    TakesDeliver(h, RELAY_LIMIT + 1);
    TakesGone(h, RELAY_LIMIT + 1);
    assert q[..|q|] == q && q[|q|..] == [];
    BytesJoin(Delivered(h.gone), q);
    NoBytes();
  }

  // ---- The whole run ----

  ghost predicate DistinctIn(packets: seq<seq<byte>>) {
    forall i, j :: 0 <= i < j < |packets| ==> GetIntOf(packets[i]) != GetIntOf(packets[j])
  }

  lemma Starts(m: Memory, from: Place, to: Place, s: int, t: int, r: Registry, sessions: set<int>, phone: seq<byte>)
    requires Prepared(m, from, to, s, t, r, sessions, phone)
    ensures Holding(m, AfterSteps(m, [], sessions), from, to, s, t, sessions, [], []) && Passed(m, [], to, s, sessions, [], [])
    ensures Led(m, [], from, to, s, sessions, [])
  {
    hide Ready, ListOf;
    ListThere(m, s, sessions);
    NothingYet();
    NoBytes();
    var none: seq<seq<byte>> := [];
    assert none + none == none && FrameBytes(none) == none;
  }

  /** Wherever the moves stop, what waits is in the list, and what does not has been forwarded. */
  lemma {:induction false} MovesLead(m: Memory, moves: seq<Move>, from: Place, to: Place, s: int, t: int, r: Registry, sessions: set<int>,
                                     phone: seq<byte>) returns (q: seq<DataBuffer>)
    requires Prepared(m, from, to, s, t, r, sessions, phone) && AllFair(moves, s, t, r) && Paced(moves, phone)
    requires DistinctIn(VoiceOf(Said(moves), phone))
    ensures var steps, voices := Steps(moves, from, to, r), VoiceOf(Said(moves), phone);
            && AllAllowed(steps, sessions) && |q| == Waiting(moves, phone)
            && Holding(m, AfterSteps(m, steps, sessions), from, to, s, t, sessions, q, voices)
            && Passed(m, steps, to, s, sessions, q, voices) && Led(m, steps, from, to, s, sessions, Said(moves))
  {
    hide Prepared, Holding, Passed, Led, TcpVerdict, Carried, IsVoiceOf, GetIntOf, VoiceOf, AllAllowed;
    if moves == [] {
      Starts(m, from, to, s, t, r, sessions, phone);
      NoVoices(phone);
      NoSteps(from, to, r, sessions);
      q := [];
    } else {
      var front, last := moves[..|moves| - 1], moves[|moves| - 1];
      assert front + [last] == moves;
      assert Fair(last, s, t, r);
      StepsNext(front, last, from, to, r);
      VoiceOfNext(Said(front), last.packet, phone);
      var steps, voices, p := Steps(front, from, to, r), VoiceOf(Said(front), phone), last.packet;
      FairFront(moves, s, t, r, phone);
      var before := MovesLead(m, front, from, to, s, t, r, sessions, phone);
      FairVoice(p, s, phone, r, m, from, to, t, sessions);
      assert Waiting(front, phone) <= RELAY_LIMIT by {
        assert front == [] || Paced(front, phone);
      }
      if last.Ask? {
        AskAll(m, steps, from, to, s, t, r, sessions, phone, Said(front), voices, before, p);
        q := [];
        assert Said(moves) == Said(front);
      } else if IsVoiceOf(p, phone) {
        NewIsDistinct(voices, p);
        q := SayVoice(m, steps, from, to, s, t, r, sessions, phone, Said(front), voices, before, p);
      } else {
        SayOther(m, steps, from, to, s, t, r, sessions, phone, Said(front), voices, before, p);
        assert voices + [] == voices;
        q := before;
      }
    }
  }

  lemma NoSteps(from: Place, to: Place, r: Registry, sessions: set<int>)
    ensures Steps([], from, to, r) == [] && AllAllowed([], sessions)
  {
  }

  lemma NewIsDistinct(packets: seq<seq<byte>>, p: seq<byte>)
    requires DistinctIn(packets + [p])
    ensures forall i :: 0 <= i < |packets| ==> GetIntOf(packets[i]) != GetIntOf(p)
  {
    hide GetIntOf;
    forall i | 0 <= i < |packets|
      ensures GetIntOf(packets[i]) != GetIntOf(p)
    {
      assert (packets + [p])[i] == packets[i] && (packets + [p])[|packets|] == p;
    }
  }

  lemma FairFront(moves: seq<Move>, s: int, t: int, r: Registry, phone: seq<byte>)
    requires moves != [] && AllFair(moves, s, t, r) && Paced(moves, phone) && DistinctIn(VoiceOf(Said(moves), phone))
    ensures var front := moves[..|moves| - 1];
            AllFair(front, s, t, r) && Paced(front, phone) && DistinctIn(VoiceOf(Said(front), phone))
  {
    hide Fair, GetIntOf, IsVoiceOf, VoiceOf;
    var front, last := moves[..|moves| - 1], moves[|moves| - 1];
    VoiceOfNext(Said(front), last.packet, phone);
    assert Said(front) + [] == Said(front);
    var a, b := VoiceOf(Said(front), phone), VoiceOf(Said(moves), phone);
    assert a <= b;
    assert forall i :: 0 <= i < |a| ==> a[i] == b[i];
  }

  lemma FairVoice(p: seq<byte>, s: int, phone: seq<byte>, r: Registry, m: Memory, from: Place, to: Place, t: int, sessions: set<int>)
    requires Prepared(m, from, to, s, t, r, sessions, phone)
    ensures TcpVerdict(p, r) == Data(s) <==> IsVoiceOf(p, phone)
    ensures TcpVerdict(p, r).Addresses? || TcpVerdict(p, r).Unknown? ==> p != []
  {
    hide Ready, LengthOk;
    VoiceVerdict(p, s, phone, r);
  }

  /**
    The relay delivers, however much is said: at a server with two quiet channels, enough buffers, and two sessions in a
    call, one side may say any number of voices with distinct numbers, and addresses between them, a frame at a time, as
    long as the other side never lets more than ten voices wait for its next packet and none at the end; then its client
    plays exactly these voices.
   */
  lemma RelayDelivers(m: Memory, moves: seq<Move>, from: Place, to: Place, s: int, t: int, r: Registry, sessions: set<int>,
                      phone: seq<byte>, voices: seq<Voice>)
    requires Prepared(m, from, to, s, t, r, sessions, phone) && AllFair(moves, s, t, r)
    requires Relayable(phone, voices) && VoiceOf(Said(moves), phone) == Packets(phone, voices)
    requires forall i, j :: 0 <= i < j < |voices| ==> voices[i].seqNumber != voices[j].seqNumber
    requires Paced(moves, phone) && Waiting(moves, phone) == 0
    ensures var steps := Steps(moves, from, to, r);
            && Carrying(m, steps, from, to, s, sessions, phone, voices, Said(moves))
            && ReadAll(Written(m, steps, to, sessions)).player == voices
  {
    hide Ready, TcpVerdict, Carried, Run, ReadAll, Written, Forwarded, Chunks, Relayed, Framed, Joined, AfterSteps, AllAllowed, Holding;
    hide RunEvents, OnlyFrom, CallersOn, Ample, ListOf, Quiet, Delivered, Relayable, VoiceOf, Packets, Waiting, Paced, Carrying, Serving, GetIntOf;
    hide OnlyNumber, Knows, AllFair, Steps, Said, FrameBytes;
    var steps, said := Steps(moves, from, to, r), Said(moves);
    PacketNumbers(phone, voices);
    var q := MovesLead(m, moves, from, to, s, t, r, sessions, phone);
    assert q == [];
    ItCarries(m, moves, from, to, s, t, r, sessions, phone, voices);
    ItServes(m, moves, from, to, s, t, r, sessions, phone);
    WrittenIsForwarded(m, steps, to, sessions);
    RelayedShort(Forwarded(m, steps, to, sessions));
    NothingHeld(m, AfterSteps(m, steps, sessions), from, to, s, t, sessions, Said(moves), phone);
    RelayComplete(m, steps, from, to, s, sessions, phone, voices, said, Written(m, steps, to, sessions));
  }

  lemma NothingHeld(m: Memory, now: Memory, from: Place, to: Place, s: int, t: int, sessions: set<int>, said: seq<seq<byte>>, phone: seq<byte>)
    requires Ready(m, sessions) && Ready(now, sessions) && s in sessions && t in sessions
    requires Holding(m, now, from, to, s, t, sessions, [], VoiceOf(said, phone))
    ensures ListOf(now, s).list == []
  {
  }

  lemma PacketNumbers(phone: seq<byte>, voices: seq<Voice>)
    requires Relayable(phone, voices) && forall i, j :: 0 <= i < j < |voices| ==> voices[i].seqNumber != voices[j].seqNumber
    ensures DistinctIn(Packets(phone, voices))
  {
    hide Build, GetInt, Carried, Parse;
    forall i | 0 <= i < |voices|
      ensures GetIntOf(Packets(phone, voices)[i]) == voices[i].seqNumber
    {
      BuildParses(phone, voices[i]);
      BuiltLength(phone, voices[i]);
    }
  }

  lemma {:induction false} SaidIsFair(moves: seq<Move>, s: int, t: int, r: Registry)
    requires AllFair(moves, s, t, r)
    ensures AllPass(Said(moves), r) && AllMarkerFree(Said(moves)) && forall i :: 0 <= i < |Said(moves)| ==> 0 < |Said(moves)[i]| <= RELAY_MAX
  {
    hide TcpVerdict, MarkerFree;
    if moves == [] {
    } else {
      var front, last := moves[..|moves| - 1], moves[|moves| - 1];
      SaidIsFair(front, s, t, r);
      assert Fair(last, s, t, r);
      FairNotEmpty(last.packet, r);
    }
  }

  lemma FairNotEmpty(p: seq<byte>, r: Registry)
    ensures p == [] ==> TcpVerdict(p, r).Throws?
  {
  }

  lemma StepsShort(moves: seq<Move>, from: Place, to: Place, s: int, t: int, r: Registry, phone: seq<byte>)
    requires AllFair(moves, s, t, r) && OnlyNumber(r, s, phone)
    ensures var steps := Steps(moves, from, to, r);
            InputsAtMost(steps, VOICE_DATA_SIZE) && Close(from) !in steps && OneNumber(steps, s, phone)
  {
    hide MarkerFree, TcpVerdict, OnlyNumber;
    assert forall i :: 0 <= i < |moves| ==> Fair(moves[i], s, t, r);
  }

  lemma ItCarries(m: Memory, moves: seq<Move>, from: Place, to: Place, s: int, t: int, r: Registry, sessions: set<int>,
                  phone: seq<byte>, voices: seq<Voice>)
    requires Prepared(m, from, to, s, t, r, sessions, phone) && AllFair(moves, s, t, r)
    requires Relayable(phone, voices) && VoiceOf(Said(moves), phone) == Packets(phone, voices)
    requires AllAllowed(Steps(moves, from, to, r), sessions) && Led(m, Steps(moves, from, to, r), from, to, s, sessions, Said(moves))
    ensures var steps := Steps(moves, from, to, r);
            && Carrying(m, steps, from, to, s, sessions, phone, voices, Said(moves))
            && Joined(Chunks(m, steps, from, sessions)) == Framed(Said(moves))
  {
    hide Ready, Chunks, Framed, Joined, OnlyFrom, CallersOn, Ample, ListOf, Knows, OnlyNumber, VoiceOf, Packets, Carried, TcpVerdict, MarkerFree;
    hide Subsequence, AllAllowed, Said, Steps, AllFair, InputsAtMost, OneNumber;
    FramesJoin(Said(moves));
    StepsShort(moves, from, to, s, t, r, phone);
    SaidIsFair(moves, s, t, r);
    SubsequenceSelf<seq<byte>>(Packets(phone, voices));
  }

  lemma ItServes(m: Memory, moves: seq<Move>, from: Place, to: Place, s: int, t: int, r: Registry, sessions: set<int>, phone: seq<byte>)
    requires Prepared(m, from, to, s, t, r, sessions, phone) && AllFair(moves, s, t, r)
    ensures Serving(Steps(moves, from, to, r), from, s, phone, Said(moves))
  {
    hide Ready, ListOf, Knows, OnlyNumber, AllPass, AllFair, Said;
    SaidIsFair(moves, s, t, r);
  }

  lemma {:induction false} RelayedShort(q: seq<Buffer>)
    ensures AtMostLong(Relayed(q), VOICE_MAX_PACKET_SIZE)
  {
    if q != [] {
      RelayedShort(q[..|q| - 1]);
    } else {
      assert Relayed(q) == [];
    }
  }
}
