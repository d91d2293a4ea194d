/**
  What the steps of the server do to its buffers, as functions on a memory: the queues at every place, the
  sequence numbers each voice list has seen, the bytes each tokenizer holds, the free queue, and what has been
  dropped for good.
 */
module Traffics {
  import opened Framing
  import opened Options
  import opened Ownership
  import opened PacketTokenizing
  import opened VoicePacket
  import opened VoiceDataLists

  const VOICE_DATA_SIZE: nat := 1024
  const VOICE_BUFFER_QUEUE_SIZE: nat := 100
  const RELAY_LIMIT: nat := 10

  datatype Memory = Memory(at: Queues, offered: map<int, set<int>>, streams: map<Place, Tokenizer>,
                           free: seq<Buffer>, lost: seq<Buffer>)

  const NEW_STREAM: Tokenizer := Tokenizer([], 0, [])

  /** Places that a tokenizer fills. */
  predicate IsTokens(p: Place) {
    p.VoiceTokens? || p.SessionTokens?
  }

  ghost predicate AllData(q: seq<Buffer>) {
    forall i :: 0 <= i < |q| ==> |q[i].bytes| >= SEQ_INDEX + 4
  }

  /**
    Every session has its queues, every tokenizer its stream, whose packets are queued as buffers, and voice lists
    hold nothing too short to have a sequence number.
   */
  ghost predicate Ready(m: Memory, sessions: set<int>) {
    && Free !in m.at && Hand !in m.at && Lost !in m.at
    && (forall s :: s in sessions ==> SessionTokens(s) in m.at && Input(s) in m.at && VoiceList(s) in m.at && s in m.offered)
    && (forall p :: p in m.at && p.VoiceList? ==> AllData(m.at[p]))
    && (forall p :: p in m.at && IsTokens(p) ==> p in m.streams && m.streams[p].packets == [])
  }

  function AtMost(n: nat, limit: nat): nat {
    if n <= limit then n else limit
  }

  // ---- Single moves ----

  function Freed(m: Memory, b: Buffer): Memory {
    m.(free := m.free + [b])
  }

  function Dropped(m: Memory, b: Buffer): Memory {
    m.(lost := m.lost + [b])
  }

  /** The front of a queue taken away. */
  function Popped(m: Memory, p: Place): Memory
    requires p in m.at && m.at[p] != []
  {
    m.(at := m.at[p := m.at[p][1..]])
  }

  /** A queue emptied into the pool, front first. */
  function Emptied(m: Memory, p: Place): Memory
    requires p in m.at
  {
    m.(at := m.at[p := []], free := m.free + m.at[p])
  }

  /** A tokenizer flushed. */
  function Flushed(m: Memory, p: Place): Memory
    requires p in m.at
  {
    Emptied(m, p).(streams := m.streams[p := NEW_STREAM])
  }

  /** A voice list reset. */
  function Cleared(m: Memory, s: int): Memory
    requires VoiceList(s) in m.at
  {
    Emptied(m, VoiceList(s)).(offered := m.offered[s := {}])
  }

  /** Packets put into the buffers at the front of the pool. */
  function Filled(free: seq<Buffer>, packets: seq<seq<byte>>): (r: seq<Buffer>)
    requires |packets| <= |free|
    ensures |r| == |packets|
  {
    seq(|packets|, i requires 0 <= i < |packets| => Buffer(free[i].key, packets[i]))
  }

  /** What session `s` holds for its peer. */
  ghost function ListOf(m: Memory, s: int): DataList
    requires VoiceList(s) in m.at && s in m.offered && AllData(m.at[VoiceList(s)])
  {
    var q := m.at[VoiceList(s)];
    assert AllData(q);
    DataList(q, m.offered[s])
  }

  /** A packet offered to a voice list; what the list does not keep goes back to the pool. */
  ghost function Listed(m: Memory, s: int, b: DataBuffer): Memory
    requires VoiceList(s) in m.at && s in m.offered && AllData(m.at[VoiceList(s)])
  {
    var before := ListOf(m, s);
    var after := before.Offer(b, VOICE_BUFFER_QUEUE_SIZE);
    m.(at := m.at[VoiceList(s) := after.list], offered := m.offered[s := after.seen],
       free := m.free + (if SeqOf(b) in before.seen then [b] else before.Evicted(b, VOICE_BUFFER_QUEUE_SIZE)))
  }

  /** The first `n` packets of a voice list, or all if there are fewer, taken out and given back. */
  function Polled(m: Memory, p: int, n: nat): Memory
    requires VoiceList(p) in m.at
  {
    var q := m.at[VoiceList(p)];
    var k := AtMost(|q|, n);
    m.(at := m.at[VoiceList(p) := q[k..]], free := m.free + q[..k])
  }

  function BytesOf(q: seq<Buffer>): (r: seq<seq<byte>>)
    ensures |r| == |q|
  {
    seq(|q|, i requires 0 <= i < |q| => q[i].bytes)
  }

  /** What is written for one packet: itself with the marker, if the buffer has room for it. */
  function FrameOf(packet: seq<byte>): seq<seq<byte>> {
    if |packet| + 8 < VOICE_DATA_SIZE then [packet + MARKER] else []
  }

  /** What the TCP relay writes for the packets it takes. */
  function Relayed(q: seq<Buffer>): seq<seq<byte>> {
    if q == [] then [] else Relayed(q[..|q| - 1]) + FrameOf(q[|q| - 1].bytes)
  }

  // ---- The verdict on a packet ----

  datatype Code = Good | Warning | Error | Severe | Thrown

  /** What becomes of a packet: an exception, an early return, a voice packet of a session, addresses, or neither. */
  datatype Verdict = Throws | Drop(code: Code) | Data(session: int) | Addresses | Unknown

  /** Who is there: sessions by phone number, those registered with the manager, and whom a session is calling. */
  datatype Registry = Registry(phoneBook: map<seq<byte>, int>, active: set<int>, peers: map<int, int>) {
    ghost predicate Within(sessions: set<int>) {
      phoneBook.Values <= sessions && peers.Values <= sessions
    }
  }

  /** The checks behind the length check, in order; reading past the end of the packet throws. */
  function Addressed(p: seq<byte>, r: Registry): Verdict {
    if |p| < PHONE_NUMBER_LENGTH then Throws
    else if p[..PHONE_NUMBER_LENGTH] !in r.phoneBook then Drop(Severe)
    else
      var s := r.phoneBook[p[..PHONE_NUMBER_LENGTH]];
      if s !in r.active then Drop(Severe)
      else if |p| < PHONE_NUMBER_LENGTH + 1 then Throws
      else if p[PHONE_NUMBER_LENGTH] == PACKET_TYPE_DATA then (if |p| < SEQ_INDEX + 4 then Throws else Data(s))
      else if p[PHONE_NUMBER_LENGTH] == PACKET_TYPE_IP then (if |p| < SEQ_INDEX + 12 then Throws else Addresses)
      else Unknown
  }

  /** VoiceTcpManager has no guard against packets shorter than the length tag. */
  function TcpVerdict(p: seq<byte>, r: Registry): Verdict {
    if |p| < LENGTH_TAG_SIZE then Throws
    else if !LengthOk(p) then Drop(Warning)
    else Addressed(p, r)
  }

  function UdpVerdict(p: seq<byte>, r: Registry): Verdict {
    if |p| < LENGTH_TAG_SIZE || !LengthOk(p) then Drop(Warning) else Addressed(p, r)
  }

  lemma DataReadable(p: seq<byte>, r: Registry, sessions: set<int>)
    requires Addressed(p, r).Data? && r.Within(sessions)
    ensures |p| >= SEQ_INDEX + 4 && Addressed(p, r).session in sessions
  {
  }

  // ---- Reads ----

  /** How a read ends: its return code, the memory, and what it has written to the socket. */
  datatype End = End(code: Code, memory: Memory, sent: seq<seq<byte>>)

  lemma ListedReady(m: Memory, s: int, b: DataBuffer, sessions: set<int>)
    requires Ready(m, sessions) && s in sessions
    ensures Ready(Listed(m, s, b), sessions)
  {
    hide SeqOf;
    assert AllData(ListOf(m, s).Offer(b, VOICE_BUFFER_QUEUE_SIZE).list);
  }

  lemma PolledReady(m: Memory, p: int, n: nat, sessions: set<int>)
    requires Ready(m, sessions) && p in sessions
    ensures Ready(Polled(m, p, n), sessions)
  {
    var q := m.at[VoiceList(p)];
    assert AllData(q) && AllData(q[AtMost(|q|, n)..]);
  }

  /** A voice packet of `s` is listed; then up to eleven of the peer's are taken and the first ten written. */
  ghost function TcpData(m: Memory, b: DataBuffer, s: int, r: Registry, sessions: set<int>): (e: End)
    requires Ready(m, sessions) && s in sessions && r.Within(sessions)
    ensures Ready(e.memory, sessions) && forall p :: p in m.at && !p.VoiceList? ==> p in e.memory.at && e.memory.at[p] == m.at[p]
  {
    hide AllData, SeqOf, Relayed, DataList.Offer, DataList.Evicted;
    ListedReady(m, s, b, sessions);
    var m' := Listed(m, s, b);
    if s !in r.peers then End(Good, m', [])
    else
      PolledReady(m', r.peers[s], RELAY_LIMIT + 1, sessions);
      var q := m'.at[VoiceList(r.peers[s])];
      End(Good, Polled(m', r.peers[s], RELAY_LIMIT + 1), Relayed(q[..AtMost(|q|, RELAY_LIMIT)]))
  }

  /** The packet loop of VoiceTcpManager.read on the packets queued at `p`. */
  ghost function TcpRun(m: Memory, p: Place, sent: seq<seq<byte>>, r: Registry, sessions: set<int>): (e: End)
    requires Ready(m, sessions) && r.Within(sessions) && p in m.at && p.VoiceTokens?
    ensures Ready(e.memory, sessions) && p in e.memory.at
    decreases |m.at[p]|
  {
    if m.at[p] == [] then End(Good, m, sent)
    else
      var b, rest := m.at[p][0], Popped(m, p);
      match TcpVerdict(b.bytes, r)
      case Throws => End(Thrown, Dropped(rest, b), sent)
      case Drop(c) => End(c, Freed(rest, b), sent)
      case Data(s) =>
        DataReadable(b.bytes, r, sessions);
        var e := TcpData(rest, b, s, r, sessions);
        TcpRun(e.memory, p, sent + e.sent, r, sessions)
      case _ => TcpRun(Freed(rest, b), p, sent, r, sessions)
  }

  /** The tokenizer refuses bytes exactly if it is full. */
  predicate Refuses(m: Memory, p: Place, bytes: seq<byte>)
    requires p in m.streams
  {
    bytes != [] && |m.streams[p].held| >= STORE_SIZE
  }

  /** The packets that the tokenizer finds when it gets more bytes, */
  function Found(m: Memory, p: Place, bytes: seq<byte>): seq<seq<byte>>
    requires p in m.streams
  {
    m.streams[p].Put(bytes, VOICE_DATA_SIZE).packets
  }

  /** and what it holds then. */
  function Fed(m: Memory, p: Place, bytes: seq<byte>): Memory
    requires p in m.streams
  {
    m.(streams := m.streams[p := m.streams[p].Put(bytes, VOICE_DATA_SIZE).(packets := [])])
  }

  /** The tokenizer queues one pool buffer per packet found; when the pool is empty, it throws. */
  function Emitted(m: Memory, p: Place, packets: seq<seq<byte>>): Memory
    requires p in m.at
  {
    var n := AtMost(|packets|, |m.free|);
    m.(at := m.at[p := m.at[p] + Filled(m.free, packets[..n])], free := m.free[n..])
  }

  /** The tokenizer's part of a read: what it is fed, and the packets it queues. */
  function Tokenized(m: Memory, p: Place, bytes: seq<byte>): Memory
    requires p in m.at && p in m.streams
  {
    Emitted(Fed(m, p, bytes), p, Found(m, p, bytes))
  }

  /**
    VoiceTcpManager.read of what the socket has, or of a failure; the buffer read into goes back to the pool before the
    packets are looked at.
   */
  ghost function TcpRead(m: Memory, p: Place, input: Option<seq<byte>>, r: Registry, sessions: set<int>): (e: End)
    requires Ready(m, sessions) && r.Within(sessions) && p.VoiceTokens?
    ensures Ready(e.memory, sessions)
  {
    if m.free == [] then End(Thrown, m, [])
    else if input.None? || input.value == [] then End(Error, Freed(Taken(m), Buffer(m.free[0].key, [])), [])
    else
      var b := Buffer(m.free[0].key, input.value);
      if p !in m.at then End(Severe, Freed(Taken(m), b), [])
      else if Refuses(m, p, b.bytes) then End(Error, Freed(Fed(Taken(m), p, b.bytes), b), [])
      else if |Found(m, p, b.bytes)| >= |m.free| then End(Thrown, Dropped(Tokenized(Taken(m), p, b.bytes), b), [])
      else TcpRun(Freed(Tokenized(Taken(m), p, b.bytes), b), p, [], r, sessions)
  }

  /** The front of the pool taken. */
  function Taken(m: Memory): Memory
    requires m.free != []
  {
    m.(free := m.free[1..])
  }

  /** VoiceUdpManager.read of one datagram, or of nothing. A packet of unknown type is not given back. */
  ghost function UdpRead(m: Memory, datagram: Option<seq<byte>>, r: Registry, sessions: set<int>): (e: End)
    requires Ready(m, sessions) && r.Within(sessions)
    ensures Ready(e.memory, sessions)
  {
    hide AllData, SeqOf, DataList.Offer, DataList.Evicted, LengthOk;
    if m.free == [] then End(Thrown, m, [])
    else
      var taken := m.(free := m.free[1..]);
      if datagram.None? || datagram.value == [] then End(Good, Freed(taken, Buffer(m.free[0].key, [])), [])
      else
        var b := Buffer(m.free[0].key, datagram.value);
        match UdpVerdict(b.bytes, r)
        case Throws => End(Thrown, Dropped(taken, b), [])
        case Drop(_) => End(Good, Freed(taken, b), [])
        case Data(s) =>
          DataReadable(b.bytes, r, sessions);
          ListedReady(taken, s, b, sessions);
          var listed := Listed(taken, s, b);
          if s !in r.peers then End(Good, listed, [])
          else
            EmptyingReady(listed, VoiceList(r.peers[s]), sessions);
            End(Good, Emptied(listed, VoiceList(r.peers[s])), BytesOf(listed.at[VoiceList(r.peers[s])]))
        case Addresses => End(Good, Freed(taken, b), [])
        case Unknown => End(Good, Dropped(taken, b), [])
  }

  // ---- Sessions ----

  /** What handling a message does to buffers: voice lists are reset, sessions are closed. */
  datatype Effect = ResetVoice(session: int) | CloseSession(session: int, peer: Option<int>) {
    ghost predicate Within(sessions: set<int>) {
      session in sessions && (CloseSession? && peer.Some? ==> peer.value in sessions)
    }

    /** The voice list of `s` is reset: the one named, that of the session closed, or that of whom it was calling. */
    predicate Resets(s: int) {
      session == s || (CloseSession? && peer == Some(s))
    }
  }

  lemma EmptyingReady(m: Memory, p: Place, sessions: set<int>)
    requires Ready(m, sessions) && p in m.at
    ensures Ready(Emptied(m, p), sessions) && Ready(Flushed(m, p), sessions)
    ensures p.VoiceList? ==> Ready(Cleared(m, p.session), sessions)
  {
    assert AllData([]);
  }

  /** What closing a session does to its own queues. */
  function OwnClosed(m: Memory, s: int): Memory
    requires SessionTokens(s) in m.at && Input(s) in m.at && VoiceList(s) in m.at
  {
    Emptied(Cleared(Flushed(m, SessionTokens(s)), s), Input(s))
  }

  lemma OwnClosedReady(m: Memory, s: int, sessions: set<int>)
    requires Ready(m, sessions) && s in sessions
    ensures Ready(OwnClosed(m, s), sessions) && OwnClosed(m, s).at.Keys == m.at.Keys
  {
    hide Emptied, Flushed, Cleared;
    EmptyingKeys(m, SessionTokens(s));
    EmptyingReady(m, SessionTokens(s), sessions);
    EmptyingKeys(Flushed(m, SessionTokens(s)), VoiceList(s));
    EmptyingReady(Flushed(m, SessionTokens(s)), VoiceList(s), sessions);
    EmptyingKeys(Cleared(Flushed(m, SessionTokens(s)), s), Input(s));
    EmptyingReady(Cleared(Flushed(m, SessionTokens(s)), s), Input(s), sessions);
  }

  lemma EmptyingKeys(m: Memory, p: Place)
    requires p in m.at
    ensures Emptied(m, p).at.Keys == Flushed(m, p).at.Keys == m.at.Keys
    ensures p.VoiceList? ==> Cleared(m, p.session).at.Keys == m.at.Keys
  {
  }

  /** Session.OnClose, with the call-off of whom the session was calling. */
  ghost function Closed(m: Memory, s: int, peer: Option<int>, sessions: set<int>): (r: Memory)
    requires Ready(m, sessions) && s in sessions && (peer.Some? ==> peer.value in sessions)
    ensures Ready(r, sessions) && r.at.Keys == m.at.Keys
  {
    hide OwnClosed, AllData;
    OwnClosedReady(m, s, sessions);
    var own := OwnClosed(m, s);
    if peer.None? then own
    else
      EmptyingReady(own, VoiceList(peer.value), sessions);
      Cleared(own, peer.value)
  }

  /** The session's own queues are empty, its numbers forgotten; no queue but these and the peer's list changes. */
  lemma ClosedFrame(m: Memory, s: int, peer: Option<int>, sessions: set<int>, p: Place)
    requires Ready(m, sessions) && s in sessions && (peer.Some? ==> peer.value in sessions) && p in m.at
    ensures var r := Closed(m, s, peer, sessions);
            && r.at[SessionTokens(s)] == r.at[Input(s)] == r.at[VoiceList(s)] == [] && r.offered[s] == {} && r.lost == m.lost
            && SessionTokens(s) in r.streams && r.streams[SessionTokens(s)] == Tokenizer([], 0, [])
            && (p !in {SessionTokens(s), Input(s), VoiceList(s)} && (peer == None || p != VoiceList(peer.value)) ==> r.at[p] == m.at[p])
  {
    hide AllData;
  }

  ghost function Affected(m: Memory, effect: Effect, sessions: set<int>): (r: Memory)
    requires Ready(m, sessions) && effect.Within(sessions)
    ensures Ready(r, sessions) && r.at.Keys == m.at.Keys
    ensures forall p :: p in m.at && p.SessionTokens? ==> r.at[p] == m.at[p] || r.at[p] == []
  {
    hide AllData, Closed;
    match effect
    case ResetVoice(s) =>
      EmptyingReady(m, VoiceList(s), sessions);
      Cleared(m, s)
    case CloseSession(s, peer) =>
      assert forall p :: p in m.at && p.SessionTokens? ==> Closed(m, s, peer, sessions).at[p] in {m.at[p], []} by {
        forall p | p in m.at && p.SessionTokens?
          ensures Closed(m, s, peer, sessions).at[p] in {m.at[p], []}
        {
          ClosedFrame(m, s, peer, sessions, p);
        }
      }
      Closed(m, s, peer, sessions)
  }

  ghost predicate AllWithin(effects: seq<Effect>, sessions: set<int>) {
    forall i :: 0 <= i < |effects| ==> effects[i].Within(sessions)
  }

  ghost function AllAffected(m: Memory, effects: seq<Effect>, sessions: set<int>): (r: Memory)
    requires Ready(m, sessions) && AllWithin(effects, sessions)
    ensures Ready(r, sessions) && r.at.Keys == m.at.Keys
    ensures forall p :: p in m.at && p.SessionTokens? ==> r.at[p] == m.at[p] || r.at[p] == []
    decreases |effects|
  {
    if effects == [] then m
    else AllAffected(Affected(m, effects[0], sessions), effects[1..], sessions)
  }

  const SESSION_PACKET_SIZE: nat := 512
  const RSA_ENCRYPTED_FLAG: byte := 0
  const UNENCRYPTED_FLAG: byte := 2

  /** What the environment does with a packet: whether it deciphers, and what handling its message does, if that does not throw. */
  datatype Handling = Handling(deciphers: bool, effects: Option<seq<Effect>>)

  /** How a packet of a session fares: no cipher for its flag, undecipherable, an exception, or a message. */
  datatype Fate = NoCipher | Undecipherable | Fails | Message(effects: seq<Effect>)

  /** The handler has its own cipher for the RSA flag; all flags but the unencrypted one fall back on the session's. */
  function FateOf(bytes: seq<byte>, hasCipher: bool, h: Handling): Fate {
    if bytes == [] then Fails
    else if bytes[0] != UNENCRYPTED_FLAG && bytes[0] != RSA_ENCRYPTED_FLAG && !hasCipher then NoCipher
    else if bytes[0] != UNENCRYPTED_FLAG && !h.deciphers then Undecipherable
    else if h.effects.None? then Fails
    else Message(h.effects.value)
  }

  ghost predicate AllHandlingsWithin(handlings: seq<Handling>, sessions: set<int>) {
    forall i :: 0 <= i < |handlings| && handlings[i].effects.Some? ==> AllWithin(handlings[i].effects.value, sessions)
  }

  /** The first packet of a read, if not encrypted, is copied to an array that a longer one overruns, whatever it says. */
  predicate Overruns(bytes: seq<byte>) {
    bytes != [] && bytes[0] == UNENCRYPTED_FLAG && |bytes| > SESSION_PACKET_SIZE
  }

  function Checked(q: seq<Buffer>, handlings: seq<Handling>): (r: seq<Handling>)
    requires |q| <= |handlings|
    ensures |r| == |handlings|
  {
    if q != [] && Overruns(q[0].bytes) then handlings[0 := handlings[0].(effects := None)] else handlings
  }

  /** The packet loop of SessionHandler.read. */
  ghost function SessionRun(m: Memory, s: int, hasCipher: bool, handlings: seq<Handling>, sessions: set<int>): (e: End)
    requires Ready(m, sessions) && s in sessions && AllHandlingsWithin(handlings, sessions)
    requires |m.at[SessionTokens(s)]| <= |handlings|
    ensures Ready(e.memory, sessions)
    decreases |handlings|
  {
    var p := SessionTokens(s);
    if m.at[p] == [] then End(Good, m, [])
    else
      var b, rest := m.at[p][0], Popped(m, p);
      match FateOf(b.bytes, hasCipher, handlings[0])
      case NoCipher => End(Severe, Dropped(rest, b), [])
      case Undecipherable => End(Severe, Freed(rest, b), [])
      case Fails => End(Thrown, Dropped(rest, b), [])
      case Message(effects) => SessionRun(Freed(AllAffected(rest, effects, sessions), b), s, hasCipher, handlings[1..], sessions)
  }

  /** The session's packets once its next input has gone through the tokenizer. */
  function PacketsAfter(m: Memory, s: int): seq<Buffer>
    requires SessionTokens(s) in m.at && SessionTokens(s) in m.streams && Input(s) in m.at && m.at[Input(s)] != []
  {
    var p := SessionTokens(s);
    var packets := Found(m, p, m.at[Input(s)][0].bytes);
    m.at[p] + Filled(m.free, packets[..AtMost(|packets|, |m.free|)])
  }

  /** SessionHandler.read: one input buffer goes through the tokenizer. */
  ghost function SessionRead(m: Memory, s: int, hasCipher: bool, handlings: seq<Handling>, sessions: set<int>): (e: End)
    requires Ready(m, sessions) && s in sessions && AllHandlingsWithin(handlings, sessions)
    requires m.at[Input(s)] != [] ==> |PacketsAfter(m, s)| <= |handlings|
    ensures Ready(e.memory, sessions)
  {
    if m.at[Input(s)] == [] then End(Error, m, [])
    else
      var p, b, taken := SessionTokens(s), m.at[Input(s)][0], Popped(m, Input(s));
      if Refuses(m, p, b.bytes) then End(Severe, Freed(Fed(taken, p, b.bytes), b), [])
      else if |Found(m, p, b.bytes)| > |m.free| then End(Thrown, Dropped(Tokenized(taken, p, b.bytes), b), [])
      else SessionRun(Freed(Tokenized(taken, p, b.bytes), b), s, hasCipher, Checked(PacketsAfter(m, s), handlings), sessions)
  }

  /** SessionManager's read of a socket: input for the session, if there is one with a handler and there is any. */
  ghost function SelectorRead(m: Memory, bytes: seq<byte>, session: Option<int>, sessions: set<int>): (r: Memory)
    requires Ready(m, sessions) && (session.Some? ==> session.value in sessions)
    ensures Ready(r, sessions)
  {
    if m.free == [] then m
    else
      var b, taken := Buffer(m.free[0].key, bytes), m.(free := m.free[1..]);
      if bytes == [] || session.None? then Freed(taken, b)
      else taken.(at := m.at[Input(session.value) := m.at[Input(session.value)] + [b]])
  }

  // ---- Channels ----

  /** VoiceTcpManager.accept: a new channel with an empty tokenizer. */
  function Opened(m: Memory, c: Place): Memory {
    m.(at := m.at[c := []], streams := m.streams[c := NEW_STREAM])
  }

  /** VoiceTcpManager.close: the channel's packets go back to the pool and its tokenizer is gone. */
  function Shut(m: Memory, c: Place): Memory
    requires c in m.at
  {
    m.(at := m.at - {c}, streams := m.streams - {c}, free := m.free + m.at[c])
  }

  lemma ChannelsReady(m: Memory, c: Place, sessions: set<int>)
    requires Ready(m, sessions) && c.VoiceTokens?
    ensures Ready(Opened(m, c), sessions) && (c in m.at ==> Ready(Shut(m, c), sessions))
  {
  }

  // ---- What a TCP read amounts to ----

  /** The return code for these packets: that of the first one that is not handled. */
  function CodeOf(queue: seq<Buffer>, r: Registry): Code {
    if queue == [] then Good
    else match TcpVerdict(queue[0].bytes, r)
      case Throws => Thrown
      case Drop(c) => c
      case _ => CodeOf(queue[1..], r)
  }

  /** The packets behind that one. */
  function Unhandled(queue: seq<Buffer>, r: Registry): seq<Buffer> {
    if queue == [] then []
    else match TcpVerdict(queue[0].bytes, r)
      case Throws => queue[1..]
      case Drop(_) => queue[1..]
      case _ => Unhandled(queue[1..], r)
  }

  /**
    A read ends at the first packet that is not handled. That one and those before it have left the queue,
    those behind it stay for the next read; nothing is dropped for good unless the read throws.
   */
  lemma {:induction false} RunOutcome(m: Memory, p: Place, sent: seq<seq<byte>>, r: Registry, sessions: set<int>)
    requires Ready(m, sessions) && r.Within(sessions) && p in m.at && p.VoiceTokens?
    ensures var e := TcpRun(m, p, sent, r, sessions);
            && e.code == CodeOf(m.at[p], r) && e.memory.at[p] == Unhandled(m.at[p], r)
            && |e.memory.lost| == |m.lost| + (if e.code == Thrown then 1 else 0) && m.lost <= e.memory.lost
    decreases |m.at[p]|
  {
    hide Ready, TcpVerdict, TcpData;
    if m.at[p] == [] {
    } else {
      var b, rest := m.at[p][0], Popped(m, p);
      ReadyPopped(m, p, b, sessions);
      match TcpVerdict(b.bytes, r)
      case Throws =>
      case Drop(_) => VerdictCodes(b.bytes, r);
      case Data(s) =>
        TcpDataReadable(b.bytes, r, sessions);
        DataKeeps(rest, b, s, r, sessions);
        var e := TcpData(rest, b, s, r, sessions);
        RunOutcome(e.memory, p, sent + e.sent, r, sessions);
      case _ =>
        RunOutcome(Freed(rest, b), p, sent, r, sessions);
    }
  }

  lemma TcpDataReadable(p: seq<byte>, r: Registry, sessions: set<int>)
    requires TcpVerdict(p, r).Data? && r.Within(sessions)
    ensures |p| >= SEQ_INDEX + 4 && TcpVerdict(p, r).session in sessions
  {
  }

  lemma VerdictCodes(p: seq<byte>, r: Registry)
    ensures TcpVerdict(p, r).Drop? ==> TcpVerdict(p, r).code in {Warning, Severe}
  {
  }

  lemma ReadyPopped(m: Memory, p: Place, b: Buffer, sessions: set<int>)
    requires Ready(m, sessions) && p in m.at && p.VoiceTokens? && m.at[p] != []
    ensures Ready(Popped(m, p), sessions) && Ready(Freed(Popped(m, p), b), sessions)
  {
  }

  lemma DataKeeps(m: Memory, b: DataBuffer, s: int, r: Registry, sessions: set<int>)
    requires Ready(m, sessions) && s in sessions && r.Within(sessions)
    ensures TcpData(m, b, s, r, sessions).memory.lost == m.lost
  {
  }

  /** More packets behind those queued at `p`. */
  function Appended(m: Memory, p: Place, more: seq<Buffer>): Memory
    requires p in m.at
  {
    m.(at := m.at[p := m.at[p] + more])
  }

  lemma AppendedReady(m: Memory, p: Place, more: seq<Buffer>, sessions: set<int>)
    requires Ready(m, sessions) && p in m.at && p.VoiceTokens?
    ensures Ready(Appended(m, p, more), sessions)
  {
  }

  lemma AppendedData(m: Memory, p: Place, more: seq<Buffer>, b: DataBuffer, s: int, r: Registry, sessions: set<int>)
    requires Ready(m, sessions) && s in sessions && r.Within(sessions) && p in m.at && p.VoiceTokens?
    requires Ready(Appended(m, p, more), sessions)
    ensures var e := TcpData(m, b, s, r, sessions);
            TcpData(Appended(m, p, more), b, s, r, sessions) == e.(memory := Appended(e.memory, p, more))
  {
    hide AllData, SeqOf, Relayed, Listed, Polled, Appended;
    AppendedListed(m, p, more, b, s, sessions);
    ListedReady(m, s, b, sessions);
    if s in r.peers {
      AppendedPolled(Listed(m, s, b), p, more, r.peers[s], RELAY_LIMIT + 1);
    }
  }

  lemma AppendedListed(m: Memory, p: Place, more: seq<Buffer>, b: DataBuffer, s: int, sessions: set<int>)
    requires Ready(m, sessions) && s in sessions && p in m.at && p.VoiceTokens? && Ready(Appended(m, p, more), sessions)
    ensures p in Listed(m, s, b).at && Listed(Appended(m, p, more), s, b) == Appended(Listed(m, s, b), p, more)
  {
    hide AllData, SeqOf, DataList.Offer, DataList.Evicted;
    assert ListOf(Appended(m, p, more), s) == ListOf(m, s);
    assert Listed(Appended(m, p, more), s, b).at == Appended(Listed(m, s, b), p, more).at;
  }

  lemma AppendedPolled(m: Memory, p: Place, more: seq<Buffer>, s: int, n: nat)
    requires VoiceList(s) in m.at && p in m.at && p.VoiceTokens?
    ensures VoiceList(s) in Appended(m, p, more).at && Appended(m, p, more).at[VoiceList(s)] == m.at[VoiceList(s)]
    ensures p in Polled(m, s, n).at && Polled(Appended(m, p, more), s, n) == Appended(Polled(m, s, n), p, more)
  {
    assert Polled(Appended(m, p, more), s, n).at == Appended(Polled(m, s, n), p, more).at;
  }

  lemma AppendedMoves(m: Memory, p: Place, more: seq<Buffer>)
    requires p in m.at && m.at[p] != []
    ensures var a := Appended(m, p, more);
            && a.at[p][0] == m.at[p][0] && a.at[p] != [] && Popped(a, p) == Appended(Popped(m, p), p, more)
            && forall b :: Freed(Popped(a, p), b) == Appended(Freed(Popped(m, p), b), p, more)
                           && Dropped(Popped(a, p), b) == Appended(Dropped(Popped(m, p), b), p, more)
  {
    assert (m.at[p] + more)[1..] == m.at[p][1..] + more;
    assert Popped(Appended(m, p, more), p).at == Appended(Popped(m, p), p, more).at;
  }

  /**
    Reads compose: packets that arrive behind others are handled as if by a later read, and if the earlier
    read ends early they stay queued. How the stream was cut into reads makes no difference to what is
    listed, freed and sent as long as all packets are handled.
   */
  lemma {:induction false} ReadsCompose(m: Memory, p: Place, more: seq<Buffer>, sent: seq<seq<byte>>, r: Registry, sessions: set<int>)
    requires Ready(m, sessions) && r.Within(sessions) && p in m.at && p.VoiceTokens?
    requires Ready(Appended(m, p, more), sessions)
    ensures var e := TcpRun(m, p, sent, r, sessions);
            && Ready(Appended(e.memory, p, more), sessions)
            && TcpRun(Appended(m, p, more), p, sent, r, sessions)
               == (if e.code == Good then TcpRun(Appended(e.memory, p, more), p, e.sent, r, sessions)
                   else e.(memory := Appended(e.memory, p, more)))
    decreases |m.at[p]|
  {
    hide Ready, TcpVerdict, TcpData, Appended, Popped, Freed, Dropped;
    AppendedReady(TcpRun(m, p, sent, r, sessions).memory, p, more, sessions);
    if m.at[p] == [] {
    } else {
      var b, rest := m.at[p][0], Popped(m, p);
      AppendedMoves(m, p, more);
      VerdictCodes(b.bytes, r);
      PoppedShorter(m, p, b);
      ReadyPopped(m, p, b, sessions);
      match TcpVerdict(b.bytes, r)
      case Throws =>
      case Drop(_) =>
      case Data(s) =>
        TcpDataReadable(b.bytes, r, sessions);
        AppendedReady(rest, p, more, sessions);
        AppendedData(rest, p, more, b, s, r, sessions);
        var e := TcpData(rest, b, s, r, sessions);
        AppendedReady(e.memory, p, more, sessions);
        ReadsCompose(e.memory, p, more, sent + e.sent, r, sessions);
      case _ =>
        AppendedReady(Freed(rest, b), p, more, sessions);
        ReadsCompose(Freed(rest, b), p, more, sent, r, sessions);
    }
  }

  lemma PoppedShorter(m: Memory, p: Place, b: Buffer)
    requires p in m.at && m.at[p] != []
    ensures p in Popped(m, p).at && |Popped(m, p).at[p]| < |m.at[p]|
    ensures p in Freed(Popped(m, p), b).at && Freed(Popped(m, p), b).at[p] == Popped(m, p).at[p]
  {
  }

  // ---- What is lost ----

  /** A queue makes its read throw exactly if a packet does that no earlier packet keeps from being looked at. */
  lemma {:induction false} CodeThrows(q: seq<Buffer>, r: Registry)
    ensures CodeOf(q, r) == Thrown
       <==> exists i :: 0 <= i < |q| && TcpVerdict(q[i].bytes, r).Throws? && forall j :: 0 <= j < i ==> !TcpVerdict(q[j].bytes, r).Drop?
  {
    hide TcpVerdict;
    if q == [] {
    } else {
      var v := TcpVerdict(q[0].bytes, r);
      VerdictCodes(q[0].bytes, r);
      CodeThrows(q[1..], r);
      if !v.Throws? && !v.Drop? {
        if CodeOf(q[1..], r) == Thrown {
          var i :| 0 <= i < |q[1..]| && TcpVerdict(q[1..][i].bytes, r).Throws?
                   && forall j :: 0 <= j < i ==> !TcpVerdict(q[1..][j].bytes, r).Drop?;
          forall j | 0 <= j < i + 1
            ensures !TcpVerdict(q[j].bytes, r).Drop?
          {
            assert j > 0 ==> q[j] == q[1..][j - 1];
          }
          assert TcpVerdict(q[i + 1].bytes, r).Throws?;
        }
        if i :| 0 <= i < |q| && TcpVerdict(q[i].bytes, r).Throws? && forall j :: 0 <= j < i ==> !TcpVerdict(q[j].bytes, r).Drop? {
          forall j | 0 <= j < i - 1
            ensures !TcpVerdict(q[1..][j].bytes, r).Drop?
          {
            assert q[1..][j] == q[j + 1];
          }
          assert TcpVerdict(q[1..][i - 1].bytes, r).Throws?;
        }
      }
    }
  }

  /** A read that gets as far as its packets. */
  predicate Reaches(m: Memory, p: Place, input: Option<seq<byte>>) {
    && m.free != [] && input.Some? && input.value != [] && p in m.at && p in m.streams && !Refuses(m, p, input.value)
  }

  /** The packets queued at a channel once the bytes have gone through its tokenizer. */
  function QueuedAfter(m: Memory, p: Place, bytes: seq<byte>): seq<Buffer>
    requires p in m.at && p in m.streams && |Found(m, p, bytes)| < |m.free|
  {
    m.at[p] + Filled(m.free[1..], Found(m, p, bytes))
  }

  lemma TokenizedQueue(m: Memory, p: Place, bytes: seq<byte>, b: Buffer)
    requires p in m.at && p in m.streams && |Found(m, p, bytes)| < |m.free|
    ensures var t := Freed(Tokenized(Taken(m), p, bytes), b);
            && p in t.at && t.at == m.at[p := QueuedAfter(m, p, bytes)] && t.lost == m.lost && t.offered == m.offered
            && t.streams == Fed(m, p, bytes).streams
  {
    hide Tokenizer.Put;
    var packets := Found(m, p, bytes);
    assert packets[..|packets|] == packets;
  }

  /**
    A TCP read drops a buffer for good exactly when, with a buffer to read into and bytes for a known channel that is
    not full, the packets found outnumber the buffers left, or a packet queued then makes it throw.
   */
  lemma TcpLosesExactly(m: Memory, p: Place, input: Option<seq<byte>>, r: Registry, sessions: set<int>)
    requires Ready(m, sessions) && r.Within(sessions) && p.VoiceTokens?
    ensures TcpRead(m, p, input, r, sessions).memory.lost != m.lost
       <==> && Reaches(m, p, input)
            && (|Found(m, p, input.value)| >= |m.free| || CodeOf(QueuedAfter(m, p, input.value), r) == Thrown)
  {
    hide TcpRun, TcpVerdict, AllData, Tokenizer.Put, CodeOf;
    if Reaches(m, p, input) {
      var b := Buffer(m.free[0].key, input.value);
      if |Found(m, p, input.value)| >= |m.free| {
        assert |TcpRead(m, p, input, r, sessions).memory.lost| == |m.lost| + 1;
      } else {
        TokenizedQueue(m, p, input.value, b);
        TokenizedReady(m, p, input.value, b, sessions);
        RunOutcome(Freed(Tokenized(Taken(m), p, input.value), b), p, [], r, sessions);
      }
    }
  }

  lemma TokenizedReady(m: Memory, p: Place, bytes: seq<byte>, b: Buffer, sessions: set<int>)
    requires Ready(m, sessions) && m.free != [] && p in m.at && IsTokens(p)
    ensures Ready(Freed(Tokenized(Taken(m), p, bytes), b), sessions)
  {
    hide Tokenizer.Put, AllData;
  }

  /**
    A UDP read drops its buffer for good exactly when the datagram ends too early, or is of neither of the
    two known types: then no branch gives it back.
   */
  lemma UdpLosesExactly(m: Memory, datagram: Option<seq<byte>>, r: Registry, sessions: set<int>)
    requires Ready(m, sessions) && r.Within(sessions)
    ensures var e := UdpRead(m, datagram, r, sessions);
            e.memory.lost != m.lost <==>
            && m.free != [] && datagram.Some? && datagram.value != []
            && (UdpVerdict(datagram.value, r).Throws? || UdpVerdict(datagram.value, r).Unknown?)
  {
    hide UdpVerdict, Listed, SeqOf;
    if m.free != [] && datagram.Some? && datagram.value != [] {
      var taken := m.(free := m.free[1..]);
      var b := Buffer(m.free[0].key, datagram.value);
      UdpDataReadable(b.bytes, r, sessions);
      match UdpVerdict(b.bytes, r)
      case Throws => assert |Dropped(taken, b).lost| == |m.lost| + 1;
      case Unknown => assert |Dropped(taken, b).lost| == |m.lost| + 1;
      case Data(s) => ListedKeeps(taken, s, b);
      case _ =>
    }
  }

  /**
    What a UDP read sends, for a session that is calling another one: the whole list of that one, packet by packet, as it was
    before; and nothing in any other case.
   */
  lemma UdpSends(m: Memory, datagram: Option<seq<byte>>, r: Registry, sessions: set<int>)
    requires Ready(m, sessions) && r.Within(sessions)
    ensures var sent := UdpRead(m, datagram, r, sessions).sent;
            if m.free != [] && datagram.Some? && datagram.value != [] && UdpVerdict(datagram.value, r).Data?
               && UdpVerdict(datagram.value, r).session in r.peers
            then var s := UdpVerdict(datagram.value, r).session;
                 r.peers[s] != s ==> VoiceList(r.peers[s]) in m.at && sent == BytesOf(m.at[VoiceList(r.peers[s])])
            else sent == []
  {
    hide UdpVerdict, AllData, SeqOf, DataList.Offer, DataList.Evicted;
    if m.free != [] && datagram.Some? && datagram.value != [] {
      UdpDataReadable(datagram.value, r, sessions);
    }
  }

  lemma UdpDataReadable(p: seq<byte>, r: Registry, sessions: set<int>)
    requires r.Within(sessions)
    ensures UdpVerdict(p, r).Data? ==> |p| >= SEQ_INDEX + 4 && UdpVerdict(p, r).session in sessions
  {
  }

  /** Input of a session with a handler is queued behind what it has, in a pool buffer; nothing else changes. */
  lemma SelectorQueues(m: Memory, bytes: seq<byte>, s: int, sessions: set<int>)
    requires Ready(m, sessions) && s in sessions && m.free != [] && bytes != []
    ensures var e := SelectorRead(m, bytes, Some(s), sessions);
            && Input(s) in e.at && BytesOf(e.at[Input(s)]) == BytesOf(m.at[Input(s)]) + [bytes]
            && |e.free| == |m.free| - 1 && e.lost == m.lost && e.offered == m.offered && e.streams == m.streams
            && forall p :: p in m.at && p != Input(s) ==> p in e.at && e.at[p] == m.at[p]
  {
  }

  lemma ListedKeeps(m: Memory, s: int, b: DataBuffer)
    requires VoiceList(s) in m.at && s in m.offered && AllData(m.at[VoiceList(s)])
    ensures Listed(m, s, b).lost == m.lost
  {
  }

  /** Such datagrams exist: an active session's number, a type other than the two, and the right length. */
  lemma UnknownTypeExists(phone: seq<byte>, kind: byte, r: Registry)
    requires |phone| == PHONE_NUMBER_LENGTH && phone in r.phoneBook && r.phoneBook[phone] in r.active
    requires kind != PACKET_TYPE_DATA && kind != PACKET_TYPE_IP
    ensures UdpVerdict(phone + [kind] + IntBytes(12), r) == Unknown
  {
    hide IntBytes;
    var p := phone + [kind] + IntBytes(12);
    assert p[12..12 + 4] == IntBytes(12);
    IntRoundTrip(12, p, 12);
    assert p[..PHONE_NUMBER_LENGTH] == phone;
  }

  /** The message does not close the session it came from. */
  ghost predicate KeepsOpen(effects: seq<Effect>, s: int) {
    forall i :: 0 <= i < |effects| ==> !(effects[i].CloseSession? && effects[i].session == s)
  }

  /** A list is reset by one of these. */
  ghost predicate AnyResets(effects: seq<Effect>, s: int) {
    exists i :: 0 <= i < |effects| && effects[i].Resets(s)
  }

  /** What the messages that a session's read handles do, in order. */
  ghost function HandledEffects(q: seq<Buffer>, s: int, hasCipher: bool, handlings: seq<Handling>): seq<Effect>
    requires |q| <= |handlings|
    decreases |q|
  {
    if q == [] then []
    else
      var f := FateOf(q[0].bytes, hasCipher, handlings[0]);
      if !f.Message? then []
      else f.effects + (if KeepsOpen(f.effects, s) then HandledEffects(q[1..], s, hasCipher, handlings[1..]) else [])
  }

  /**
    How a packet fares: a flag neither of RSA nor of none needs the session's cipher; an encrypted one must decipher; an empty one
    has no flag to read.
   */
  lemma FateExactly(bytes: seq<byte>, hasCipher: bool, h: Handling)
    ensures var f := FateOf(bytes, hasCipher, h);
            && (f.NoCipher? <==> bytes != [] && bytes[0] != 2 && bytes[0] != 0 && !hasCipher)
            && (f.Undecipherable? <==> bytes != [] && bytes[0] != 2 && (bytes[0] == 0 || hasCipher) && !h.deciphers)
            && (f.Message? <==> && bytes != [] && (bytes[0] == 2 || ((bytes[0] == 0 || hasCipher) && h.deciphers)) && h.effects.Some?)
            && (f.Message? ==> h.effects == Some(f.effects))
  {
  }

  /** The loop over a session's packets reaches the `k`-th, and that one is dropped for good. */
  ghost predicate LosesAt(q: seq<Buffer>, s: int, hasCipher: bool, handlings: seq<Handling>, k: int)
    requires |q| <= |handlings|
  {
    && 0 <= k < |q|
    && (forall j :: 0 <= j < k ==> GoesOn(FateOf(q[j].bytes, hasCipher, handlings[j]), s))
    && (FateOf(q[k].bytes, hasCipher, handlings[k]).NoCipher? || FateOf(q[k].bytes, hasCipher, handlings[k]).Fails?)
  }

  ghost predicate GoesOn(fate: Fate, s: int) {
    fate.Message? && KeepsOpen(fate.effects, s)
  }

  ghost predicate Loses(q: seq<Buffer>, s: int, hasCipher: bool, handlings: seq<Handling>)
    requires |q| <= |handlings|
  {
    exists k :: LosesAt(q, s, hasCipher, handlings, k)
  }

  lemma LosesStep(q: seq<Buffer>, s: int, hasCipher: bool, handlings: seq<Handling>)
    requires 0 < |q| <= |handlings|
    ensures var f := FateOf(q[0].bytes, hasCipher, handlings[0]);
            Loses(q, s, hasCipher, handlings)
            <==> f.NoCipher? || f.Fails? || (GoesOn(f, s) && Loses(q[1..], s, hasCipher, handlings[1..]))
  {
    hide FateOf, GoesOn;
    var f := FateOf(q[0].bytes, hasCipher, handlings[0]);
    var q', h' := q[1..], handlings[1..];
    if f.NoCipher? || f.Fails? {
      assert LosesAt(q, s, hasCipher, handlings, 0);
    }
    if GoesOn(f, s) && Loses(q', s, hasCipher, h') {
      var k :| LosesAt(q', s, hasCipher, h', k);
      forall j | 0 <= j < k + 1
        ensures GoesOn(FateOf(q[j].bytes, hasCipher, handlings[j]), s)
      {
        assert j > 0 ==> q[j] == q'[j - 1] && handlings[j] == h'[j - 1];
      }
      assert LosesAt(q, s, hasCipher, handlings, k + 1);
    }
    if Loses(q, s, hasCipher, handlings) && !f.NoCipher? && !f.Fails? {
      var k :| LosesAt(q, s, hasCipher, handlings, k);
      assert k > 0 && GoesOn(FateOf(q[0].bytes, hasCipher, handlings[0]), s);
      forall j | 0 <= j < k - 1
        ensures GoesOn(FateOf(q'[j].bytes, hasCipher, h'[j]), s)
      {
        assert q'[j] == q[j + 1] && h'[j] == handlings[j + 1];
      }
      assert LosesAt(q', s, hasCipher, h', k - 1);
    }
  }

  lemma NothingToLose(s: int, hasCipher: bool, handlings: seq<Handling>)
    ensures !Loses([], s, hasCipher, handlings)
  {
  }

  /** A loop over a session's packets drops one for good exactly if it reaches one without a cipher or that throws. */
  lemma {:induction false} SessionRunLoses(m: Memory, s: int, hasCipher: bool, handlings: seq<Handling>, sessions: set<int>)
    requires Ready(m, sessions) && s in sessions && AllHandlingsWithin(handlings, sessions)
    requires |m.at[SessionTokens(s)]| <= |handlings|
    ensures |SessionRun(m, s, hasCipher, handlings, sessions).memory.lost|
         == |m.lost| + (if Loses(m.at[SessionTokens(s)], s, hasCipher, handlings) then 1 else 0)
    decreases |handlings|
  {
    hide AllData, AllAffected, AllWithin, FateOf, Loses, KeepsOpen;
    var p := SessionTokens(s);
    if m.at[p] == [] {
      NothingToLose(s, hasCipher, handlings);
    } else {
      var b, rest := m.at[p][0], Popped(m, p);
      var f := FateOf(b.bytes, hasCipher, handlings[0]);
      LosesStep(m.at[p], s, hasCipher, handlings);
      SessionPopped(m, s, sessions);
      if f.Message? {
        MessageWithin(b.bytes, hasCipher, handlings, sessions);
        AffectedKeeps(rest, f.effects, s, sessions);
        var after := AllAffected(rest, f.effects, sessions);
        SessionFreed(after, b, sessions);
        SessionRunLoses(Freed(after, b), s, hasCipher, handlings[1..], sessions);
        NothingToLose(s, hasCipher, handlings[1..]);
      }
    }
  }

  /** The loop comes to its `k`-th packet and goes no further. */
  ghost predicate EndsAt(q: seq<Buffer>, s: int, hasCipher: bool, handlings: seq<Handling>, k: nat)
    requires |q| <= |handlings|
  {
    && k < |q| && (forall j :: 0 <= j < k ==> GoesOn(FateOf(q[j].bytes, hasCipher, handlings[j]), s))
    && !FateOf(q[k].bytes, hasCipher, handlings[k]).Message?
  }

  lemma EndsStep(q: seq<Buffer>, s: int, hasCipher: bool, handlings: seq<Handling>, k: nat)
    requires 0 < |q| <= |handlings|
    ensures EndsAt(q, s, hasCipher, handlings, 0) <==> !FateOf(q[0].bytes, hasCipher, handlings[0]).Message?
    ensures EndsAt(q, s, hasCipher, handlings, k + 1)
       <==> GoesOn(FateOf(q[0].bytes, hasCipher, handlings[0]), s) && EndsAt(q[1..], s, hasCipher, handlings[1..], k)
  {
    hide FateOf, GoesOn;
    if GoesOn(FateOf(q[0].bytes, hasCipher, handlings[0]), s) && EndsAt(q[1..], s, hasCipher, handlings[1..], k) {
      forall j | 0 <= j < k + 1
        ensures GoesOn(FateOf(q[j].bytes, hasCipher, handlings[j]), s)
      {
        assert j > 0 ==> q[j] == q[1..][j - 1] && handlings[j] == handlings[1..][j - 1];
      }
    }
    if EndsAt(q, s, hasCipher, handlings, k + 1) {
      forall j | 0 <= j < k
        ensures GoesOn(FateOf(q[1..][j].bytes, hasCipher, handlings[1..][j]), s)
      {
        assert q[1..][j] == q[j + 1] && handlings[1..][j] == handlings[j + 1];
      }
    }
  }

  /** A message handled: the loop goes on with what is queued then. */
  lemma SessionStep(m: Memory, s: int, hasCipher: bool, handlings: seq<Handling>, sessions: set<int>) returns (next: Memory)
    requires Ready(m, sessions) && s in sessions && AllHandlingsWithin(handlings, sessions)
    requires 0 < |m.at[SessionTokens(s)]| <= |handlings| && FateOf(m.at[SessionTokens(s)][0].bytes, hasCipher, handlings[0]).Message?
    ensures var q := m.at[SessionTokens(s)];
            var effects := FateOf(q[0].bytes, hasCipher, handlings[0]).effects;
            && Ready(next, sessions) && AllWithin(effects, sessions) && AllHandlingsWithin(handlings[1..], sessions)
            && SessionTokens(s) in m.at && Ready(Popped(m, SessionTokens(s)), sessions)
            && next == Freed(AllAffected(Popped(m, SessionTokens(s)), effects, sessions), q[0])
            && next.at[SessionTokens(s)] == (if KeepsOpen(effects, s) then q[1..] else [])
            && SessionRun(m, s, hasCipher, handlings, sessions) == SessionRun(next, s, hasCipher, handlings[1..], sessions)
  {
    hide AllData, AllAffected, AllWithin, FateOf, KeepsOpen;
    var b, rest := m.at[SessionTokens(s)][0], Popped(m, SessionTokens(s));
    var effects := FateOf(b.bytes, hasCipher, handlings[0]).effects;
    SessionPopped(m, s, sessions);
    MessageWithin(b.bytes, hasCipher, handlings, sessions);
    AffectedKeeps(rest, effects, s, sessions);
    SessionFreed(AllAffected(rest, effects, sessions), b, sessions);
    next := Freed(AllAffected(rest, effects, sessions), b);
  }

  /**
    A loop over a session's packets stops at the first that is no message: by an exception, or for want of a cipher or of
    sense. The packets behind that one stay queued.
   */
  lemma {:induction false} SessionRunEnds(m: Memory, s: int, hasCipher: bool, handlings: seq<Handling>, sessions: set<int>, k: nat)
    requires Ready(m, sessions) && s in sessions && AllHandlingsWithin(handlings, sessions)
    requires |m.at[SessionTokens(s)]| <= |handlings| && EndsAt(m.at[SessionTokens(s)], s, hasCipher, handlings, k)
    ensures var e, q := SessionRun(m, s, hasCipher, handlings, sessions), m.at[SessionTokens(s)];
            && e.code == (if FateOf(q[k].bytes, hasCipher, handlings[k]).Fails? then Thrown else Severe)
            && SessionTokens(s) in e.memory.at && e.memory.at[SessionTokens(s)] == q[k + 1..]
    decreases k
  {
    hide AllData, AllAffected, AllWithin, FateOf, KeepsOpen, AllHandlingsWithin;
    var q := m.at[SessionTokens(s)];
    if k > 0 {
      hide SessionRun;
      assert GoesOn(FateOf(q[0].bytes, hasCipher, handlings[0]), s);
      EndsStep(q, s, hasCipher, handlings, k - 1);
      hide EndsAt;
      var next := SessionStep(m, s, hasCipher, handlings, sessions);
      SessionRunEnds(next, s, hasCipher, handlings[1..], sessions, k - 1);
      assert q[1..][k - 1] == q[k] && handlings[1..][k - 1] == handlings[k] && q[1..][k..] == q[k + 1..];
    }
  }

  /** If there is none, all is handled, and nothing stays. */
  lemma {:induction false} SessionRunGood(m: Memory, s: int, hasCipher: bool, handlings: seq<Handling>, sessions: set<int>)
    requires Ready(m, sessions) && s in sessions && AllHandlingsWithin(handlings, sessions) && |m.at[SessionTokens(s)]| <= |handlings|
    requires forall k: nat :: !EndsAt(m.at[SessionTokens(s)], s, hasCipher, handlings, k)
    ensures var e := SessionRun(m, s, hasCipher, handlings, sessions);
            e.code == Good && SessionTokens(s) in e.memory.at && e.memory.at[SessionTokens(s)] == []
    decreases |handlings|
  {
    hide AllData, AllAffected, AllWithin, FateOf, KeepsOpen, EndsAt, AllHandlingsWithin;
    var q := m.at[SessionTokens(s)];
    if q != [] {
      EndsStep(q, s, hasCipher, handlings, 0);
      assert !EndsAt(q, s, hasCipher, handlings, 0);
      var next := SessionStep(m, s, hasCipher, handlings, sessions);
      forall k: nat
        ensures !EndsAt(next.at[SessionTokens(s)], s, hasCipher, handlings[1..], k)
      {
        EndsStep(q, s, hasCipher, handlings, k);
        assert !EndsAt(q, s, hasCipher, handlings, k + 1);
        NothingEnds(s, hasCipher, handlings[1..], k);
      }
      SessionRunGood(next, s, hasCipher, handlings[1..], sessions);
    }
  }

  lemma NothingEnds(s: int, hasCipher: bool, handlings: seq<Handling>, k: nat)
    ensures !EndsAt([], s, hasCipher, handlings, k)
  {
  }

  lemma MessageWithin(bytes: seq<byte>, hasCipher: bool, handlings: seq<Handling>, sessions: set<int>)
    requires handlings != [] && AllHandlingsWithin(handlings, sessions) && FateOf(bytes, hasCipher, handlings[0]).Message?
    ensures AllWithin(FateOf(bytes, hasCipher, handlings[0]).effects, sessions) && AllHandlingsWithin(handlings[1..], sessions)
  {
  }

  /**
    A session's read drops a buffer for good exactly when, with input and a tokenizer that is not full, the packets
    found outnumber the free buffers, or the first of those queued then is unencrypted and longer than the handler's
    array, or they come, before anything else ends the read, to one that has no cipher or throws.
   */
  lemma SessionLosesExactly(m: Memory, s: int, hasCipher: bool, handlings: seq<Handling>, sessions: set<int>)
    requires Ready(m, sessions) && s in sessions && AllHandlingsWithin(handlings, sessions)
    requires m.at[Input(s)] != [] ==> |PacketsAfter(m, s)| <= |handlings|
    ensures SessionRead(m, s, hasCipher, handlings, sessions).memory.lost != m.lost
       <==> && m.at[Input(s)] != [] && !Refuses(m, SessionTokens(s), m.at[Input(s)][0].bytes)
            && var q := PacketsAfter(m, s);
            (|Found(m, SessionTokens(s), m.at[Input(s)][0].bytes)| > |m.free|
             || (q != [] && Overruns(q[0].bytes)) || Loses(q, s, hasCipher, handlings))
  {
    hide AllData, SessionRun, Loses, Tokenizer.Put, AllHandlingsWithin, Overruns, Checked;
    if m.at[Input(s)] != [] && !Refuses(m, SessionTokens(s), m.at[Input(s)][0].bytes) {
      var p, b, taken := SessionTokens(s), m.at[Input(s)][0], Popped(m, Input(s));
      var packets := Found(m, p, b.bytes);
      if |packets| > |m.free| {
        assert |SessionRead(m, s, hasCipher, handlings, sessions).memory.lost| == |m.lost| + 1;
      } else {
        assert Found(taken, p, b.bytes) == packets;
        assert Freed(Tokenized(taken, p, b.bytes), b).at[p] == PacketsAfter(m, s);
        var q := PacketsAfter(m, s);
        CheckedWithin(q, handlings, sessions);
        CheckedLoses(q, s, hasCipher, handlings);
        SessionRunLoses(Freed(Tokenized(taken, p, b.bytes), b), s, hasCipher, Checked(q, handlings), sessions);
        LostGrows(Freed(Tokenized(taken, p, b.bytes), b), s, hasCipher, Checked(q, handlings), sessions);
      }
    }
  }

  lemma CheckedWithin(q: seq<Buffer>, handlings: seq<Handling>, sessions: set<int>)
    requires |q| <= |handlings| && AllHandlingsWithin(handlings, sessions)
    ensures AllHandlingsWithin(Checked(q, handlings), sessions)
  {
    hide AllWithin;
  }

  lemma CheckedLoses(q: seq<Buffer>, s: int, hasCipher: bool, handlings: seq<Handling>)
    requires |q| <= |handlings|
    ensures Loses(q, s, hasCipher, Checked(q, handlings)) <==> (q != [] && Overruns(q[0].bytes)) || Loses(q, s, hasCipher, handlings)
  {
    hide Loses;
    if q != [] && Overruns(q[0].bytes) {
      LosesStep(q, s, hasCipher, Checked(q, handlings));
    }
  }

  lemma {:induction false} LostGrows(m: Memory, s: int, hasCipher: bool, handlings: seq<Handling>, sessions: set<int>)
    requires Ready(m, sessions) && s in sessions && AllHandlingsWithin(handlings, sessions)
    requires |m.at[SessionTokens(s)]| <= |handlings|
    ensures m.lost <= SessionRun(m, s, hasCipher, handlings, sessions).memory.lost
    decreases |handlings|
  {
    hide AllData, AllAffected, AllWithin, FateOf, KeepsOpen;
    var p := SessionTokens(s);
    if m.at[p] == [] {
    } else {
      var b, rest := m.at[p][0], Popped(m, p);
      var f := FateOf(b.bytes, hasCipher, handlings[0]);
      SessionPopped(m, s, sessions);
      if f.Message? {
        MessageWithin(b.bytes, hasCipher, handlings, sessions);
        AffectedKeeps(rest, f.effects, s, sessions);
        var after := AllAffected(rest, f.effects, sessions);
        SessionFreed(after, b, sessions);
        LostGrows(Freed(after, b), s, hasCipher, handlings[1..], sessions);
      }
    }
  }

  lemma SessionPopped(m: Memory, s: int, sessions: set<int>)
    requires Ready(m, sessions) && s in sessions && m.at[SessionTokens(s)] != []
    ensures Ready(Popped(m, SessionTokens(s)), sessions)
  {
  }

  lemma SessionFreed(m: Memory, b: Buffer, sessions: set<int>)
    requires Ready(m, sessions)
    ensures Ready(Freed(m, b), sessions)
  {
  }

  /** What messages do: nothing is lost, and the session's packets stay queued exactly if they do not close it. */
  lemma {:induction false} AffectedKeeps(m: Memory, effects: seq<Effect>, s: int, sessions: set<int>)
    requires Ready(m, sessions) && AllWithin(effects, sessions) && s in sessions
    ensures AllAffected(m, effects, sessions).lost == m.lost
    ensures AllAffected(m, effects, sessions).at[SessionTokens(s)] == if KeepsOpen(effects, s) then m.at[SessionTokens(s)] else []
    decreases |effects|
  {
    if effects == [] {
    } else {
      var after := Affected(m, effects[0], sessions);
      AffectedKeeps(after, effects[1..], s, sessions);
      AffectedQueue(m, effects[0], s, sessions);
      OpenStep(effects, s);
    }
  }

  lemma OpenStep(effects: seq<Effect>, s: int)
    requires effects != []
    ensures KeepsOpen(effects, s) <==> !(effects[0].CloseSession? && effects[0].session == s) && KeepsOpen(effects[1..], s)
  {
    if KeepsOpen(effects[1..], s) {
      forall i | 1 <= i < |effects|
        ensures !(effects[i].CloseSession? && effects[i].session == s)
      {
        assert effects[i] == effects[1..][i - 1];
      }
    }
  }

  lemma AffectedQueue(m: Memory, effect: Effect, s: int, sessions: set<int>)
    requires Ready(m, sessions) && effect.Within(sessions) && s in sessions
    ensures Affected(m, effect, sessions).at[SessionTokens(s)]
         == if effect.CloseSession? && effect.session == s then [] else m.at[SessionTokens(s)]
    ensures Affected(m, effect, sessions).lost == m.lost
  {
    hide AllData, Closed;
    if effect.CloseSession? {
      ClosedFrame(m, effect.session, effect.peer, sessions, SessionTokens(s));
    }
  }
}
