/**
  The whole way of a voice over TCP: written by one client, tokenized, listed and relayed by the server's reads, and
  tokenized and parsed by the other client.
 */
module Relays {
  import opened Framing
  import opened Options
  import opened Ownership
  import opened PacketTokenizing
  import opened ServerLists
  import opened ServerRuns
  import opened ServerSteps
  import opened ServerStreams
  import opened Subsequences
  import opened Traffics
  import opened VoiceDataLists
  import opened VoiceManagers
  import opened VoicePacket

  /** The longest packet that the relay forwards: the marker must fit behind it. */
  const RELAY_MAX: nat := 1015

  function Packets(phone: seq<byte>, voices: seq<Voice>): (r: seq<seq<byte>>)
    requires |phone| == PHONE_NUMBER_LENGTH && forall i :: 0 <= i < |voices| ==> Sendable(voices[i])
    ensures |r| == |voices|
  {
    seq(|voices|, i requires 0 <= i < |voices| => Build(phone, voices[i]))
  }

  /** What a phone sends that the relay can carry: packets without a marker inside, with room for one behind. */
  ghost predicate Relayable(phone: seq<byte>, voices: seq<Voice>) {
    && |phone| == PHONE_NUMBER_LENGTH && (forall i :: 0 <= i < |voices| ==> Sendable(voices[i]))
    && forall i :: 0 <= i < |voices| ==> Carried(Build(phone, voices[i]))
  }

  ghost predicate Carried(packet: seq<byte>) {
    MarkerFree(packet) && |packet| <= RELAY_MAX
  }

  ghost predicate AllCarried(packets: seq<seq<byte>>) {
    forall i :: 0 <= i < |packets| ==> Carried(packets[i])
  }

  // ---- What the server writes ----

  /** A packet is written, with the marker behind it, exactly up to that length; the first ten of a list at most. */
  lemma WrittenExactly(packet: seq<byte>)
    ensures FrameOf(packet) == if |packet| <= RELAY_MAX then [packet + MARKER] else []
  {
  }

  /** Packets with room for the marker are relayed as frames. */
  lemma {:induction false} RelayedFrames(q: seq<Buffer>)
    requires AllCarried(BytesOf(q))
    ensures Joined(Relayed(q)) == Framed(BytesOf(q))
  {
    hide Relayed, Joined, Framed, MarkerFree;
    if q == [] {
      NoFrames();
      assert BytesOf(q) == [];
    } else {
      var q', b := q[..|q| - 1], q[|q| - 1];
      assert BytesOf(q) == BytesOf(q') + [b.bytes];
      assert BytesOf(q)[|q'|] == b.bytes && forall i :: 0 <= i < |q'| ==> BytesOf(q')[i] == BytesOf(q)[i];
      RelayedFrames(q');
      RelayedLast(q', b);
      assert q' + [b] == q;
      FramedLast(BytesOf(q'), b.bytes);
    }
  }

  lemma NoFrames()
    ensures Joined(Relayed([])) == Framed([])
  {
  }

  lemma RelayedLast(q: seq<Buffer>, b: Buffer)
    requires |b.bytes| <= RELAY_MAX
    ensures Joined(Relayed(q + [b])) == Joined(Relayed(q)) + (b.bytes + MARKER)
  {
    var frame := b.bytes + MARKER;
    assert (q + [b])[..|q|] == q;
    assert FrameOf(b.bytes) == [frame];
    assert Relayed(q + [b]) == Relayed(q) + [frame];
    assert (Relayed(q) + [frame])[..|Relayed(q)|] == Relayed(q);
  }

  lemma {:induction false} FirstAmongArrivals(events: seq<Event>)
    ensures Subsequence(FirstArrivals(events), Arrivals(events))
  {
    if events == [] {
    } else {
      var before, e := events[..|events| - 1], events[|events| - 1];
      FirstAmongArrivals(before);
      if e.Arrive? {
        SubsequenceLast(FirstArrivals(before), Arrivals(before), e.b);
        assert FirstArrivals(events) == FirstArrivals(before) || FirstArrivals(events) == FirstArrivals(before) + [e.b];
      } else {
        assert Arrivals(events) == Arrivals(before);
      }
    }
  }

  lemma {:induction false} SubsequenceBytes(a: seq<Buffer>, b: seq<Buffer>)
    requires Subsequence<Buffer>(a, b)
    ensures Subsequence<seq<byte>>(BytesOf(a), BytesOf(b))
  {
    if b == [] {
    } else {
      var b' := b[..|b| - 1];
      assert BytesOf(b)[..|b| - 1] == BytesOf(b');
      if Subsequence<Buffer>(a, b') {
        SubsequenceBytes(a, b');
      } else {
        SubsequenceBytes(a[..|a| - 1], b');
        assert BytesOf(a)[..|a| - 1] == BytesOf(a[..|a| - 1]);
      }
    }
  }

  lemma {:induction false} AsBuffers(a: seq<DataBuffer>, b: seq<DataBuffer>)
    requires Subsequence<DataBuffer>(a, b)
    ensures Subsequence<Buffer>(a, b)
  {
    if b == [] {
    } else {
      var b' := b[..|b| - 1];
      if Subsequence<DataBuffer>(a, b') {
        AsBuffers(a, b');
      } else {
        AsBuffers(a[..|a| - 1], b');
      }
    }
  }

  /** What a run from the beginning delivers is, in order, part of what arrives. */
  lemma DeliveredArrived(events: seq<Event>)
    ensures Subsequence<Buffer>(Deliveries(Run([], VOICE_BUFFER_QUEUE_SIZE), events), Arrivals(events))
  {
    hide Subsequence, Run, Arrivals, FirstArrivals, Delivered, Continue;
    var none: seq<Event> := [];
    ContinueRun(none, events);
    assert none + events == events;
    NothingYet();
    PolledInArrivalOrder(events, VOICE_BUFFER_QUEUE_SIZE);
    FirstAmongArrivals(events);
    var delivered := Delivered(Run(events, VOICE_BUFFER_QUEUE_SIZE).gone);
    AsBuffers(delivered, FirstArrivals(events));
    AsBuffers(FirstArrivals(events), Arrivals(events));
    SubsequenceTrans<Buffer>(delivered, FirstArrivals(events), Arrivals(events));
  }

  lemma NothingYet()
    ensures Run([], VOICE_BUFFER_QUEUE_SIZE) == History(DataList([], {}), []) && Delivered([]) == []
  {
  }

  // ---- What the other client makes of it ----

  /** What the packets say. */
  function Spoken(packets: seq<seq<byte>>): (r: seq<Voice>)
    requires AllParse(packets)
    ensures |r| == |packets|
  {
    seq(|packets|, i requires 0 <= i < |packets| => Parse(packets[i]).value)
  }

  lemma PacketsSpeak(phone: seq<byte>, voices: seq<Voice>)
    requires Relayable(phone, voices)
    ensures AllParse(Packets(phone, voices)) && Spoken(Packets(phone, voices)) == voices
    ensures AllCarried(Packets(phone, voices)) && AllMarkerFree(Packets(phone, voices))
    ensures forall i :: 0 <= i < |voices| ==> 0 < |Packets(phone, voices)[i]| <= RELAY_MAX
  {
    hide Build, Parse, MarkerFree;
    forall i | 0 <= i < |voices|
      ensures Parse(Packets(phone, voices)[i]) == Some(voices[i])
    {
      BuildParses(phone, voices[i]);
      BuiltLength(phone, voices[i]);
    }
  }

  /** Packets taken from those written, in order, say part of what was said, in order. */
  lemma {:induction false} PartSpeaks(bs: seq<seq<byte>>, phone: seq<byte>, voices: seq<Voice>)
    requires Relayable(phone, voices) && Subsequence<seq<byte>>(bs, Packets(phone, voices))
    ensures AllCarried(bs) && AllParse(bs) && Subsequence(Spoken(bs), voices)
  {
    hide Parse, Build, Carried, AllCarried, AllParse, Spoken;
    if voices == [] {
      assert Packets(phone, voices) == [];
      NothingSpoken();
      SubsequenceNone<Voice>([]);
    } else {
      var front, last := voices[..|voices| - 1], voices[|voices| - 1];
      assert Packets(phone, voices)[..|voices| - 1] == Packets(phone, front);
      assert front + [last] == voices;
      if Subsequence<seq<byte>>(bs, Packets(phone, front)) {
        PartSpeaks(bs, phone, front);
        SubsequenceLast<Voice>(Spoken(bs), front, last);
      } else {
        var bs' := bs[..|bs| - 1];
        PartSpeaks(bs', phone, front);
        BuildParses(phone, last);
        SpeaksLast(bs', bs[|bs'|], last);
        assert bs' + [bs[|bs'|]] == bs;
        SubsequenceLast<Voice>(Spoken(bs'), front, last);
      }
    }
  }

  lemma NothingSpoken()
    ensures AllCarried([]) && AllParse([]) && Spoken([]) == []
  {
  }

  lemma SpeaksLast(bs: seq<seq<byte>>, p: seq<byte>, v: Voice)
    requires AllCarried(bs) && AllParse(bs) && Carried(p) && Parse(p) == Some(v)
    ensures AllCarried(bs + [p]) && AllParse(bs + [p]) && Spoken(bs + [p]) == Spoken(bs) + [v]
  {
    hide Parse, Carried;
  }

  lemma ParsedNotEmpty(p: seq<byte>)
    ensures Parse(p).Some? ==> p != []
  {
  }

  /**
    A client that has got a beginning of the stream of these packets, framed, in reads of the size it makes, has played
    the first so many of them, in order; and all of them if it has got all.
   */
  lemma ClientPlays(bs: seq<seq<byte>>, down: seq<seq<byte>>) returns (j: nat)
    requires AllCarried(bs) && AllParse(bs)
    requires Joined(down) <= Framed(bs) && AtMostLong(down, VOICE_MAX_PACKET_SIZE)
    ensures j <= |bs| && ReadAll(down).player == Spoken(bs)[..j]
    ensures Joined(down) == Framed(bs) ==> j == |bs| && ReadAll(down).tokenizer == Tokenizer([], 0, [])
  {
    hide MarkerFree, ReadAll, Parse, Framed, Joined, PutAll, Heard;
    forall i | 0 <= i < |bs|
      ensures MarkerFree(bs[i]) && 0 < |bs[i]| <= CLIENT_PACKET_SIZE
    {
      assert Carried(bs[i]);
      ParsedNotEmpty(bs[i]);
    }
    j := FramesArriveSoFar(bs, down, CLIENT_PACKET_SIZE, VOICE_MAX_PACKET_SIZE);
    var got := bs[..j];
    if Joined(down) == Framed(bs) {
      j := |bs|;
      got := bs;
    }
    assert got == bs[..j];
    ChunkedReading(down);
    AllHeard(got);
    assert Heard(got) == Spoken(bs)[..j];
  }

  // ---- What a client's transmissions contain ----

  lemma VoiceAndAddress(phone: seq<byte>, v: Voice, n: nat, address: Option<Address>)
    requires |phone| == PHONE_NUMBER_LENGTH && Sendable(v)
    ensures VoiceOf(Next(phone, v, n, address), phone) == [Build(phone, v)]
    ensures forall r, s :: Knows(r, s, phone) ==> AllPass(Next(phone, v, n, address), r)
  {
    hide Build, BuildAddress, IsVoiceOf, TcpVerdict, VoiceOf, Knows;
    var next := Next(phone, v, n, address);
    BuiltIsVoice(phone, v);
    VoiceOfOne(Build(phone, v), phone);
    assert [Build(phone, v)] + [] == [Build(phone, v)];
    if |next| == 2 {
      AddressNoVoice(phone, address.value);
      VoiceOfOne(next[1], phone);
      VoiceOfJoin([Build(phone, v)], [next[1]], phone);
      assert [Build(phone, v)] + [next[1]] == next;
    }
    forall r, s | Knows(r, s, phone)
      ensures AllPass(next, r)
    {
      BuiltPasses(phone, v, s, r);
      if |next| == 2 {
        AddressPasses(phone, address.value, s, r);
      }
    }
  }

  lemma AddressNoVoice(phone: seq<byte>, a: Address)
    requires |phone| == PHONE_NUMBER_LENGTH
    ensures !IsVoiceOf(BuildAddress(phone, a), phone)
  {
    hide BuildAddress, LengthOk;
    AddressShape(phone, a);
  }

  lemma AddressPasses(phone: seq<byte>, a: Address, s: int, r: Registry)
    requires |phone| == PHONE_NUMBER_LENGTH && Knows(r, s, phone)
    ensures TcpVerdict(BuildAddress(phone, a), r) == Addresses
  {
    hide BuildAddress, LengthOk;
    AddressShape(phone, a);
    var p := BuildAddress(phone, a);
    assert |p| == 28 && LengthOk(p);
  }

  /**
    The voice in a transmission is the voices written, whatever addresses are told between them; and no packet of it
    ends a read while the sender is registered.
   */
  lemma {:induction false} TransmissionVoices(phone: seq<byte>, voices: seq<Voice>, addresses: seq<Option<Address>>)
    requires |phone| == PHONE_NUMBER_LENGTH && (forall i :: 0 <= i < |voices| ==> Sendable(voices[i])) && |voices| <= |addresses|
    ensures VoiceOf(Transmission(phone, voices, addresses), phone) == Packets(phone, voices)
    ensures forall r, s :: Knows(r, s, phone) ==> AllPass(Transmission(phone, voices, addresses), r)
  {
    hide Build, Next, VoiceOf, Knows, Passes;
    if voices == [] {
      NoVoices(phone);
    } else {
      var n := |voices| - 1;
      var before, next := Transmission(phone, voices[..n], addresses), Next(phone, voices[n], n, addresses[n]);
      TransmissionVoices(phone, voices[..n], addresses);
      VoiceAndAddress(phone, voices[n], n, addresses[n]);
      VoiceOfJoin(before, next, phone);
      assert Packets(phone, voices) == Packets(phone, voices[..n]) + [Build(phone, voices[n])];
    }
  }

  // ---- End to end ----

  /**
    A run of the server between two clients: on channel `from`, which is new, a beginning of a framed stream comes in
    whose voice under `phone` is the packets of `voices` or some of them, in order; `phone` is the only number of session
    `s`, whose list is new; nobody sends as `s` elsewhere; and on channel `to`, all senders are calling `s`. Steps of any
    kind may come in between, reads fail or run out of buffers, lists be polled or reset, calls and registrations change.
   */
  ghost predicate Carrying(m: Memory, steps: seq<Step>, from: Place, to: Place, s: int, sessions: set<int>,
                           phone: seq<byte>, voices: seq<Voice>, payloads: seq<seq<byte>>) {
    && Ready(m, sessions) && AllAllowed(steps, sessions) && s in sessions
    && ListOf(m, s) == DataList([], {})
    && Relayable(phone, voices)
    && Streaming(m, steps, from, sessions, payloads) && Subsequence<seq<byte>>(VoiceOf(payloads, phone), Packets(phone, voices))
    && OnlyFrom(m, steps, from, s, sessions) && OneNumber(steps, s, phone)
    && CallersOn(m, steps, to, s, sessions)
  }

  lemma CarryingParts(m: Memory, steps: seq<Step>, from: Place, to: Place, s: int, sessions: set<int>,
                      phone: seq<byte>, voices: seq<Voice>, payloads: seq<seq<byte>>)
    requires Carrying(m, steps, from, to, s, sessions, phone, voices, payloads)
    ensures Ready(m, sessions) && AllAllowed(steps, sessions) && s in sessions && Relayable(phone, voices)
    ensures ListOf(m, s) == Run([], VOICE_BUFFER_QUEUE_SIZE).now
    ensures Streaming(m, steps, from, sessions, payloads) && Subsequence<seq<byte>>(VoiceOf(payloads, phone), Packets(phone, voices))
    ensures OnlyFrom(m, steps, from, s, sessions) && OneNumber(steps, s, phone) && CallersOn(m, steps, to, s, sessions)
  {
    hide Ready, Relayable, Streaming, OnlyFrom, CallersOn, AllAllowed, OneNumber, Subsequence, VoiceOf;
    NothingYet();
  }

  /** What has arrived in the session's list is, in order, part of the packets written. */
  lemma ArrivedWasWritten(m: Memory, steps: seq<Step>, from: Place, to: Place, s: int, sessions: set<int>,
                          phone: seq<byte>, voices: seq<Voice>, payloads: seq<seq<byte>>)
    requires Carrying(m, steps, from, to, s, sessions, phone, voices, payloads)
    ensures Ready(m, sessions) && AllAllowed(steps, sessions) && Relayable(phone, voices)
    ensures Subsequence<seq<byte>>(BytesOf(Arrivals(RunEvents(m, steps, s, sessions))), Packets(phone, voices))
  {
    hide Ready, Carried, Streaming, OnlyFrom, CallersOn, AllAllowed, OneNumber, Carrying, ListOf, Subsequence, Arrivals, BytesOf;
    hide RunEvents, Packets, AfterSteps, Chunks, PutAll, Joined, Framed, NeverOverfull, AllMarkerFree, VoiceOf, AllVoice;
    CarryingParts(m, steps, from, to, s, sessions, phone, voices, payloads);
    var chunks := Chunks(m, steps, from, sessions);
    var found := PutAll(chunks, VOICE_DATA_SIZE).packets;
    ArrivedWasFound(m, steps, from, s, sessions, payloads);
    ArrivedIsVoice(m, steps, from, s, sessions, phone);
    var arrived, queued := BytesOf(Arrivals(RunEvents(m, steps, s, sessions))), BytesOf(AfterSteps(m, steps, sessions).at[from]);
    ArrivedPart(arrived, queued, found);
    HeldLittle(m, steps, from, sessions, payloads);
    StreamingFrames(m, steps, from, sessions, payloads);
    var j := FoundSoFar(chunks, payloads);
    SubsequenceFront<seq<byte>>(payloads, j);
    SubsequenceTrans<seq<byte>>(arrived, found, payloads);
    VoicePart(arrived, payloads, phone);
    SubsequenceTrans<seq<byte>>(arrived, VoiceOf(payloads, phone), Packets(phone, voices));
  }

  /** What is forwarded to the other side is, in order, part of the packets written. */
  lemma ForwardedWasWritten(m: Memory, steps: seq<Step>, from: Place, to: Place, s: int, sessions: set<int>,
                            phone: seq<byte>, voices: seq<Voice>, payloads: seq<seq<byte>>)
    requires Carrying(m, steps, from, to, s, sessions, phone, voices, payloads)
    ensures Ready(m, sessions) && AllAllowed(steps, sessions) && Relayable(phone, voices)
    ensures Subsequence<seq<byte>>(BytesOf(Forwarded(m, steps, to, sessions)), Packets(phone, voices))
  {
    hide Ready, Carried, Streaming, OnlyFrom, CallersOn, AllAllowed, OneNumber, Carrying, ListOf, Subsequence, Arrivals, Deliveries, BytesOf;
    hide Forwarded, RunEvents, Packets, VoiceOf;
    CarryingParts(m, steps, from, to, s, sessions, phone, voices, payloads);
    ArrivedWasWritten(m, steps, from, to, s, sessions, phone, voices, payloads);
    var forwarded, events := Forwarded(m, steps, to, sessions), RunEvents(m, steps, s, sessions);
    ForwardedWasDelivered(m, steps, to, s, sessions, []);
    DeliveredArrived(events);
    SubsequenceTrans<Buffer>(forwarded, Deliveries(Run([], VOICE_BUFFER_QUEUE_SIZE), events), Arrivals(events));
    SubsequenceBytes(forwarded, Arrivals(events));
    SubsequenceTrans<seq<byte>>(BytesOf(forwarded), BytesOf(Arrivals(events)), Packets(phone, voices));
  }

  lemma ArrivedPart<A(!new)>(a: seq<A>, b: seq<A>, c: seq<A>)
    requires Subsequence(a + b, c)
    ensures Subsequence(a, c)
  {
    hide Subsequence;
    SubsequenceFront(a + b, |a|);
    assert (a + b)[..|a|] == a;
    SubsequenceTrans(a, a + b, c);
  }

  /**
    End to end, for every run of the server: of the voices that one client writes, the other one, from what the server
    has written to its channel, plays a subsequence, each unchanged and in the order of writing; and when it has got
    all that was written to it, it has played everything forwarded to it.
   */
  lemma RelayRoundTrip(m: Memory, steps: seq<Step>, from: Place, to: Place, s: int, sessions: set<int>,
                       phone: seq<byte>, voices: seq<Voice>, payloads: seq<seq<byte>>, down: seq<seq<byte>>)
    requires Carrying(m, steps, from, to, s, sessions, phone, voices, payloads)
    requires Joined(down) <= Joined(Written(m, steps, to, sessions)) && AtMostLong(down, VOICE_MAX_PACKET_SIZE)
    ensures Subsequence(ReadAll(down).player, voices)
    ensures Joined(down) == Joined(Written(m, steps, to, sessions)) ==> |ReadAll(down).player| == |Forwarded(m, steps, to, sessions)|
  {
    hide Ready, Relayable, Carrying, Subsequence, Parse, AllCarried, AllParse, Spoken, ReadAll, Relayed, Joined, Framed, Written, Forwarded;
    hide AllAllowed;
    ForwardedWasWritten(m, steps, from, to, s, sessions, phone, voices, payloads);
    var forwarded := Forwarded(m, steps, to, sessions);
    WrittenIsForwarded(m, steps, to, sessions);
    PartSpeaks(BytesOf(forwarded), phone, voices);
    RelayedFrames(forwarded);
    var j := ClientPlays(BytesOf(forwarded), down);
    var spoken := Spoken(BytesOf(forwarded));
    SubsequenceFront<Voice>(spoken, j);
    SubsequenceTrans<Voice>(spoken[..j], spoken, voices);
  }

  /**
    Nothing is missing when the sender is registered and its stream has nothing that ends a read, the pool suffices, all
    numbers differ, none is evicted or reset away, the list ends up empty, and all that was polled was forwarded: then the
    other client plays exactly what was written.
   */
  lemma RelayComplete(m: Memory, steps: seq<Step>, from: Place, to: Place, s: int, sessions: set<int>,
                      phone: seq<byte>, voices: seq<Voice>, payloads: seq<seq<byte>>, down: seq<seq<byte>>)
    requires Carrying(m, steps, from, to, s, sessions, phone, voices, payloads) && VoiceOf(payloads, phone) == Packets(phone, voices)
    requires Serving(steps, from, s, phone, payloads) && Ample(m, steps, from, sessions)
    requires forall i, j :: 0 <= i < j < |voices| ==> voices[i].seqNumber != voices[j].seqNumber
    requires Joined(Chunks(m, steps, from, sessions)) == Framed(payloads)
    requires var h := Run(RunEvents(m, steps, s, sessions), VOICE_BUFFER_QUEUE_SIZE);
             && h.now.list == [] && (forall i :: 0 <= i < |h.gone| ==> h.gone[i].delivered)
             && Forwarded(m, steps, to, sessions) == Delivered(h.gone)
    requires Joined(down) == Joined(Written(m, steps, to, sessions)) && AtMostLong(down, VOICE_MAX_PACKET_SIZE)
    ensures ReadAll(down).player == voices
  {
    hide Ready, Carried, Streaming, OnlyFrom, CallersOn, AllAllowed, OneNumber, Serving, Carrying, ListOf, Subsequence, Arrivals, Run, Ample;
    hide RunEvents, Forwarded, Written, AfterSteps, Chunks, PutAll, Joined, Framed, NeverOverfull, AllMarkerFree, SeqOf, Delivered;
    hide VoiceOf, AllCarried, AllParse, Spoken, ReadAll, Relayed, FirstArrivals, GoneBuffers, Packets;
    CarryingParts(m, steps, from, to, s, sessions, phone, voices, payloads);
    var events, chunks := RunEvents(m, steps, s, sessions), Chunks(m, steps, from, sessions);
    var h, forwarded := Run(events, VOICE_BUFFER_QUEUE_SIZE), Forwarded(m, steps, to, sessions);
    var packets := Packets(phone, voices);
    AllArrive(m, steps, from, s, sessions, phone, payloads);
    HeldLittle(m, steps, from, sessions, payloads);
    StreamingFrames(m, steps, from, sessions, payloads);
    var j := FoundSoFar(chunks, payloads);
    assert payloads[..|payloads|] == payloads;
    assert BytesOf(Arrivals(events)) == packets;
    DistinctNumbers(phone, voices, Arrivals(events));
    FirstAreAll(events);
    FirstInFirstOut(events, VOICE_BUFFER_QUEUE_SIZE);
    AllDelivered(h.gone);
    assert forwarded == Arrivals(events);
    PacketsSpeak(phone, voices);
    WrittenIsForwarded(m, steps, to, sessions);
    RelayedFrames(forwarded);
    var i := ClientPlays(packets, down);
    assert voices[..|voices|] == voices;
  }

  lemma {:induction false} AllDelivered(gone: seq<Gone>)
    requires forall i :: 0 <= i < |gone| ==> gone[i].delivered
    ensures Delivered(gone) == GoneBuffers(gone)
  {
    if gone == [] {
    } else {
      AllDelivered(gone[..|gone| - 1]);
      assert GoneBuffers(gone) == GoneBuffers(gone[..|gone| - 1]) + [gone[|gone| - 1].b];
    }
  }

  lemma DistinctNumbers(phone: seq<byte>, voices: seq<Voice>, arrived: seq<DataBuffer>)
    requires Relayable(phone, voices) && forall i, j :: 0 <= i < j < |voices| ==> voices[i].seqNumber != voices[j].seqNumber
    requires BytesOf(arrived) == Packets(phone, voices)
    ensures forall i, j :: 0 <= i < j < |arrived| ==> SeqOf(arrived[i]) != SeqOf(arrived[j])
  {
    hide Build, Parse, MarkerFree, GetInt;
    forall i | 0 <= i < |arrived|
      ensures SeqOf(arrived[i]) == voices[i].seqNumber
    {
      assert BytesOf(arrived)[i] == Packets(phone, voices)[i];
      BuildParses(phone, voices[i]);
    }
  }

  lemma {:induction false} FirstAreAll(events: seq<Event>)
    requires forall i, j :: 0 <= i < j < |Arrivals(events)| ==> SeqOf(Arrivals(events)[i]) != SeqOf(Arrivals(events)[j])
    ensures FirstArrivals(events) == Arrivals(events)
    ensures Offered(events) <= set i | 0 <= i < |Arrivals(events)| :: SeqOf(Arrivals(events)[i])
  {
    hide SeqOf;
    if events == [] {
    } else {
      var before, e := events[..|events| - 1], events[|events| - 1];
      assert forall i :: 0 <= i < |Arrivals(before)| ==> Arrivals(before)[i] == Arrivals(events)[i];
      FirstAreAll(before);
      if e.Arrive? {
        assert Arrivals(events)[|Arrivals(before)|] == e.b;
      }
    }
  }
}
