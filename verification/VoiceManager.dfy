/**
  client/src/network/VoiceManager.java: a voice packet is written, and what arrives is tokenized, checked,
  parsed and handed to the player.
 */
module VoiceManagers {
  import opened Framing
  import opened Options
  import opened PacketTokenizing
  import opened VoicePacket

  const CLIENT_PACKET_SIZE: nat := 2048
  const VOICE_MAX_PACKET_SIZE: nat := 2073

  /** The voices of the packets up to the first one that is rejected, */
  function Heard(queue: seq<seq<byte>>): seq<Voice> {
    if queue == [] || Parse(queue[0]).None? then [] else [Parse(queue[0]).value] + Heard(queue[1..])
  }

  /** and the packets behind that one. */
  function NotHeard(queue: seq<seq<byte>>): seq<seq<byte>> {
    if queue == [] then [] else if Parse(queue[0]).None? then queue[1..] else NotHeard(queue[1..])
  }

  /** The receiving client: its tokenizer, and what the player has got. */
  datatype Client = Client(tokenizer: Tokenizer, player: seq<Voice>) {
    function Read(chunk: seq<byte>): Client {
      var t := tokenizer.Put(chunk, CLIENT_PACKET_SIZE);
      Client(t.(packets := NotHeard(t.packets)), player + Heard(t.packets))
    }
  }

  function ReadAll(chunks: seq<seq<byte>>): Client {
    if chunks == [] then Client(Tokenizer([], 0, []), [])
    else ReadAll(chunks[..|chunks| - 1]).Read(chunks[|chunks| - 1])
  }

  ghost predicate AllParse(packets: seq<seq<byte>>) {
    forall i :: 0 <= i < |packets| ==> Parse(packets[i]).Some?
  }

  lemma {:induction false} AllHeard(packets: seq<seq<byte>>)
    requires AllParse(packets)
    ensures NotHeard(packets) == [] && |Heard(packets)| == |packets|
    ensures forall i :: 0 <= i < |packets| ==> Heard(packets)[i] == Parse(packets[i]).value
  {
    hide Parse;
    if packets == [] {
    } else {
      AllHeard(packets[1..]);
    }
  }

  /** The voices before the first packet that is rejected are played; that packet is dropped, and what is behind it stays. */
  lemma {:induction false} HeardExactly(queue: seq<seq<byte>>, k: nat)
    requires k < |queue| && AllParse(queue[..k]) && Parse(queue[k]).None?
    ensures |Heard(queue)| == k && (forall i :: 0 <= i < k ==> Heard(queue)[i] == Parse(queue[i]).value) && NotHeard(queue) == queue[k + 1..]
  {
    hide Parse;
    if k > 0 {
      assert queue[..k][0] == queue[0];
      assert queue[..k][1..] == queue[1..][..k - 1];
      HeardExactly(queue[1..], k - 1);
    }
  }

  lemma {:induction false} HeardAppend(a: seq<seq<byte>>, b: seq<seq<byte>>)
    requires AllParse(a)
    ensures Heard(a + b) == Heard(a) + Heard(b)
  {
    hide Parse;
    if a == [] {
      assert a + b == b;
    } else {
      assert (a + b)[1..] == a[1..] + b;
      HeardAppend(a[1..], b);
    }
  }

  /** Reading chunk by chunk comes to the same as reading the whole stream, if every packet of it is accepted. */
  lemma {:induction false} ChunkedReading(chunks: seq<seq<byte>>)
    requires AllParse(PutAll(chunks, CLIENT_PACKET_SIZE).packets)
    ensures var t := PutAll(chunks, CLIENT_PACKET_SIZE);
            ReadAll(chunks) == Client(t.(packets := []), Heard(t.packets))
  {
    hide Tokenizer.Put, Parse;
    if chunks == [] {
    } else {
      var before, last := chunks[..|chunks| - 1], chunks[|chunks| - 1];
      var t := PutAll(before, CLIENT_PACKET_SIZE);
      PutKeepsPackets(t, last, CLIENT_PACKET_SIZE);
      var new' := t.(packets := []).Put(last, CLIENT_PACKET_SIZE).packets;
      assert AllParse(t.packets) && AllParse(new') by {
        assert forall i :: 0 <= i < |t.packets| ==> (t.packets + new')[i] == t.packets[i];
        assert forall i :: 0 <= i < |new'| ==> (t.packets + new')[|t.packets| + i] == new'[i];
      }
      ChunkedReading(before);
      AllHeard(new');
      HeardAppend(t.packets, new');
    }
  }

  // ---- What a client writes on TCP ----

  const IP_SEND_AMOUNT: nat := 5
  const FROM_TCP_SERVER_MAIN: byte := 6

  /** The `n`-th voice written since the start of the transmission, and the address behind it if it is one of the first. */
  function Next(phone: seq<byte>, v: Voice, n: nat, address: Option<Address>): seq<seq<byte>>
    requires |phone| == PHONE_NUMBER_LENGTH && Sendable(v)
  {
    [Build(phone, v)]
    + (if n < IP_SEND_AMOUNT && v.fromFlag == FROM_TCP_SERVER_MAIN && address.Some? then [BuildAddress(phone, address.value)] else [])
  }

  /** The packets of a transmission; `addresses` is what there is to tell behind each voice, if anything. */
  function Transmission(phone: seq<byte>, voices: seq<Voice>, addresses: seq<Option<Address>>): seq<seq<byte>>
    requires |phone| == PHONE_NUMBER_LENGTH && (forall i :: 0 <= i < |voices| ==> Sendable(voices[i])) && |voices| <= |addresses|
  {
    if voices == [] then []
    else
      var n := |voices| - 1;
      Transmission(phone, voices[..n], addresses) + Next(phone, voices[n], n, addresses[n])
  }

  lemma {:induction false} TransmissionPrefix(phone: seq<byte>, voices: seq<Voice>, addresses: seq<Option<Address>>, more: seq<Option<Address>>)
    requires |phone| == PHONE_NUMBER_LENGTH && (forall i :: 0 <= i < |voices| ==> Sendable(voices[i])) && |voices| <= |addresses|
    ensures Transmission(phone, voices, addresses + more) == Transmission(phone, voices, addresses)
  {
    hide Next;
    if voices == [] {
    } else {
      TransmissionPrefix(phone, voices[..|voices| - 1], addresses, more);
    }
  }

  /** How many addresses the first `n` writes of a transmission send, if there is always one to tell. */
  function Told(voices: seq<Voice>, addresses: seq<Option<Address>>, n: nat): nat
    requires n <= |voices| <= |addresses|
  {
    if n == 0 then 0
    else Told(voices, addresses, n - 1)
         + (if n <= 5 && voices[n - 1].fromFlag == 6 && addresses[n - 1].Some? then 1 else 0)
  }

  /** Where the packets of a transmission are: each voice behind those before it and their addresses, its own address right behind it. */
  lemma {:induction false} TransmissionAt(phone: seq<byte>, voices: seq<Voice>, addresses: seq<Option<Address>>, i: nat)
    requires |phone| == PHONE_NUMBER_LENGTH && (forall j :: 0 <= j < |voices| ==> Sendable(voices[j])) && i < |voices| <= |addresses|
    ensures var t, at := Transmission(phone, voices, addresses), i + Told(voices, addresses, i);
            && |t| == |voices| + Told(voices, addresses, |voices|) && at < |t| && t[at] == Build(phone, voices[i])
            && (i < 5 && voices[i].fromFlag == 6 && addresses[i].Some?
                ==> at + 1 < |t| && t[at + 1] == BuildAddress(phone, addresses[i].value))
    decreases |voices|
  {
    hide Build, BuildAddress;
    var n := |voices| - 1;
    var front := voices[..n];
    ToldBefore(voices, addresses, n, n);
    ToldBefore(voices, addresses, n, i);
    if n > 0 {
      TransmissionAt(phone, front, addresses, if i < n then i else 0);
    }
  }

  lemma {:induction false} ToldBefore(voices: seq<Voice>, addresses: seq<Option<Address>>, m: nat, n: nat)
    requires n <= m <= |voices| <= |addresses|
    ensures Told(voices[..m], addresses, n) == Told(voices, addresses, n)
    decreases n
  {
    if n > 0 {
      ToldBefore(voices, addresses, m, n - 1);
    }
  }

  lemma TransmissionNext(phone: seq<byte>, voices: seq<Voice>, addresses: seq<Option<Address>>, v: Voice, address: Option<Address>)
    requires |phone| == PHONE_NUMBER_LENGTH && (forall i :: 0 <= i < |voices| ==> Sendable(voices[i])) && |voices| == |addresses| && Sendable(v)
    ensures Transmission(phone, voices + [v], addresses + [address])
         == Transmission(phone, voices, addresses) + Next(phone, v, |voices|, address)
  {
    hide Next;
    TransmissionPrefix(phone, voices, addresses, [address]);
    assert (voices + [v])[..|voices|] == voices;
  }

  class VoiceManager {
    const packetTokenizer: PacketTokenizer
    const fromFlag: byte
    const phoneNumber: seq<byte>
    var player: seq<Voice>
    var sendIPCount: nat
    var channel: seq<byte>
    ghost var earlier: seq<seq<byte>>
    ghost var said: seq<Voice>
    ghost var addresses: seq<Option<Address>>

    ghost predicate Valid()
      reads this, packetTokenizer
    {
      packetTokenizer.Valid() && packetTokenizer.packetSize == CLIENT_PACKET_SIZE
    }

    ghost function Abs(): Client
      requires Valid()
      reads this, packetTokenizer, packetTokenizer.ownBuffer
    {
      Client(packetTokenizer.Abs(), player)
    }

    /** What has been written to the channel is earlier packets and those of the transmission so far, framed. */
    ghost predicate Transmitting()
      reads this
    {
      && |phoneNumber| == PHONE_NUMBER_LENGTH && |said| == |addresses|
      && (forall i :: 0 <= i < |said| ==> Sendable(said[i]) && said[i].fromFlag == fromFlag)
      && sendIPCount == (if fromFlag != FROM_TCP_SERVER_MAIN then 0 else if |said| < IP_SEND_AMOUNT then |said| else IP_SEND_AMOUNT)
      && channel == Framed(earlier + Transmission(phoneNumber, said, addresses))
    }

    constructor (phoneNumber: seq<byte>, fromFlag: byte)
      requires |phoneNumber| == PHONE_NUMBER_LENGTH
      ensures Valid() && fresh(packetTokenizer) && fresh(packetTokenizer.ownBuffer)
      ensures Abs() == Client(Tokenizer([], 0, []), [])
      ensures Transmitting() && channel == [] && said == [] && this.phoneNumber == phoneNumber && this.fromFlag == fromFlag
    {
      packetTokenizer := new PacketTokenizer(CLIENT_PACKET_SIZE);
      this.phoneNumber, this.fromFlag := phoneNumber, fromFlag;
      player, sendIPCount, channel := [], 0, [];
      earlier, said, addresses := [], [], [];
    }

    /** A new transmission: the next voices are again followed by addresses. */
    method StartTransmission()
      requires Transmitting()
      modifies this`sendIPCount, this`earlier, this`said, this`addresses
      ensures Transmitting() && said == []
      ensures earlier == old(earlier) + Transmission(phoneNumber, old(said), old(addresses))
    {
      earlier := earlier + Transmission(phoneNumber, said, addresses);
      said, addresses, sendIPCount := [], [], 0;
      assert earlier + [] == earlier;
    }

    /** Tells the server the client's address, if it has one. */
    method SendIPs(address: Option<Address>, ghost packets: seq<seq<byte>>)
      requires |phoneNumber| == PHONE_NUMBER_LENGTH && channel == Framed(packets)
      modifies this`channel
      ensures channel == Framed(packets + (if address.Some? then [BuildAddress(phoneNumber, address.value)] else []))
    {
      hide IntBytes, Framed;
      if address.None? {
        assert packets + [] == packets;
        return;
      }
      var buffer := phoneNumber + [PACKET_TYPE_IP];
      buffer := buffer + address.value.ip;
      buffer := buffer + IntBytes(address.value.port);
      buffer := buffer + IntBytes(|buffer|);
      FramedLast(packets, buffer);
      channel := channel + (buffer + MARKER);
    }

    /**
      Writes one voice to the TCP channel, and behind each of the first of a transmission the client's address, if it
      has one; a voice too long for the buffer is an exception, and nothing is written.
     */
    method Transmit(v: Voice, address: Option<Address>) returns (ok: bool)
      requires Transmitting() && Sendable(v) && v.fromFlag == fromFlag
      modifies this`sendIPCount, this`channel, this`said, this`addresses
      ensures Transmitting()
      ensures ok <==> VOICE_MIN_PACKET_SIZE + |v.data| + |MARKER| <= VOICE_MAX_PACKET_SIZE
      ensures if ok then said == old(said) + [v] && addresses == old(addresses) + [address]
              else said == old(said) && addresses == old(addresses) && channel == old(channel)
    {
      hide Build, Framed, Transmission;
      var packet := Write(phoneNumber, v, true);
      if packet.None? {
        return false;
      }
      ghost var packets := earlier + Transmission(phoneNumber, said, addresses);
      FramedLast(packets, Build(phoneNumber, v));
      channel := channel + packet.value;
      packets := packets + [Build(phoneNumber, v)];
      if sendIPCount < IP_SEND_AMOUNT && fromFlag == FROM_TCP_SERVER_MAIN {
        sendIPCount := sendIPCount + 1;
        SendIPs(address, packets);
        packets := packets + (if address.Some? then [BuildAddress(phoneNumber, address.value)] else []);
      }
      TransmissionNext(phoneNumber, said, addresses, v, address);
      ghost var next := Next(phoneNumber, v, |said|, address);
      assert packets == earlier + (Transmission(phoneNumber, said, addresses) + next);
      said, addresses := said + [v], addresses + [address];
      return true;
    }

    /**
      Writes a packet field by field into a buffer of fixed size, with the marker behind it on TCP; a packet
      that does not fit is an exception.
     */
    method Write(phoneNumber: seq<byte>, v: Voice, tcp: bool) returns (packet: Option<seq<byte>>)
      requires |phoneNumber| == PHONE_NUMBER_LENGTH && Sendable(v)
      ensures var whole := Build(phoneNumber, v) + (if tcp then MARKER else []);
              packet == if |whole| <= VOICE_MAX_PACKET_SIZE then Some(whole) else None
    {
      hide IntBytes;
      var buffer := phoneNumber;
      buffer := buffer + [PACKET_TYPE_DATA];
      buffer := buffer + IntBytes(v.seqNumber);
      buffer := buffer + [v.fromFlag];
      buffer := buffer + IntBytes(v.timestamp);
      if |buffer| + |v.data| > VOICE_MAX_PACKET_SIZE {
        return None;
      }
      buffer := buffer + v.data;
      if |buffer| + LENGTH_TAG_SIZE > VOICE_MAX_PACKET_SIZE {
        return None;
      }
      assert buffer == Body(phoneNumber, v);
      buffer := buffer + IntBytes(|buffer|);
      assert buffer == Build(phoneNumber, v) && buffer + [] == buffer;
      if tcp {
        if |buffer| + |MARKER| > VOICE_MAX_PACKET_SIZE {
          return None;
        }
        buffer := buffer + MARKER;
      }
      return Some(buffer);
    }

    /** A TCP read: the chunk goes to the tokenizer; packets are played up to the first that is rejected. */
    method Read(chunk: seq<byte>) returns (ok: bool)
      requires Valid()
      modifies this`player, packetTokenizer, packetTokenizer.ownBuffer
      ensures Valid() && Abs() == old(Abs()).Read(chunk)
      ensures ok <==> AllParse(old(Abs()).tokenizer.Put(chunk, CLIENT_PACKET_SIZE).packets)
    {
      hide Parse, Tokenizer.Put;
      var _ := packetTokenizer.Put(chunk);
      ghost var t := packetTokenizer.Abs();
      var packet := packetTokenizer.Get();
      ghost var left := t.packets;
      while packet.Some?
        invariant Valid() && t == old(Abs()).tokenizer.Put(chunk, CLIENT_PACKET_SIZE)
        invariant if packet.Some? then left != [] && packet.value == left[0] else left == []
        invariant packetTokenizer.Abs() == t.(packets := if packet.Some? then left[1..] else left)
        invariant player + Heard(left) == old(player) + Heard(t.packets) && NotHeard(left) == NotHeard(t.packets)
        invariant AllParse(left) <==> AllParse(t.packets)
        decreases |left|
      {
        var voice := Parse(packet.value);
        if voice.None? {
          return false;
        }
        assert AllParse(left) <==> AllParse(left[1..]);
        assert player + ([voice.value] + Heard(left[1..])) == player + [voice.value] + Heard(left[1..]);
        player := player + [voice.value];
        left := left[1..];
        packet := packetTokenizer.Get();
      }
      return true;
    }
  }
}
