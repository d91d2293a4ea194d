/**
  The framing of packets on a byte stream: every packet is followed by an eight-byte marker
  (client/src/network/PacketTokenizer.java, server/voice/PacketTokenizer.java).
 */
module Framing {
  type byte = b: int | 0 <= b < 256

  const EOF_VALUE: int := 0x54F9A32B
  const MARKER: seq<byte> := [0, 0, 0, 0, 0x54, 0xF9, 0xA3, 0x2B]

  /** ByteBuffer.getInt, big-endian, without its sign. */
  function Word(s: seq<byte>, i: nat): nat
    requires i + 4 <= |s|
  {
    ((s[i] as int * 256 + s[i + 1]) * 256 + s[i + 2]) * 256 + s[i + 3]
  }

  /** ByteBuffer.getLong: eight bytes, big-endian, in two's complement. */
  function GetLong(s: seq<byte>, i: nat): int
    requires i + 8 <= |s|
  {
    var unsigned := Word(s, i) * 0x1_0000_0000 + Word(s, i + 4);
    if unsigned >= 0x8000_0000_0000_0000 then unsigned - 0x1_0000_0000_0000_0000 else unsigned
  }

  predicate MarkerAt(s: seq<byte>, i: int) {
    0 <= i && i + 8 <= |s| && s[i..i + 8] == MARKER
  }

  lemma Digit(x: int, y: int, a: int, b: int)
    requires 0 <= y < 256 && 0 <= b < 256
    ensures x * 256 + y == a * 256 + b <==> x == a && y == b
  {
  }

  lemma WordDigits(s: seq<byte>, i: nat, a: byte, b: byte, c: byte, d: byte)
    requires i + 4 <= |s|
    ensures Word(s, i) == ((a as int * 256 + b) * 256 + c) * 256 + d
       <==> s[i] == a && s[i + 1] == b && s[i + 2] == c && s[i + 3] == d
  {
    Digit(s[i], s[i + 1], a, b);
    Digit(s[i] as int * 256 + s[i + 1], s[i + 2], a as int * 256 + b, c);
    Digit((s[i] as int * 256 + s[i + 1]) * 256 + s[i + 2], s[i + 3], (a as int * 256 + b) * 256 + c, d);
  }

  lemma WordBound(s: seq<byte>, i: nat)
    requires i + 4 <= |s|
    ensures 0 <= Word(s, i) < 0x1_0000_0000
  {
  }

  /** The code's test by a long value is a test for the eight marker bytes. */
  lemma MarkerIsLong(s: seq<byte>, i: nat)
    requires i + 8 <= |s|
    ensures GetLong(s, i) == EOF_VALUE <==> MarkerAt(s, i)
  {
    hide Word;
    WordBound(s, i);
    WordBound(s, i + 4);
    WordDigits(s, i, 0, 0, 0, 0);
    WordDigits(s, i + 4, 0x54, 0xF9, 0xA3, 0x2B);
    assert GetLong(s, i) == EOF_VALUE <==> Word(s, i) == 0 && Word(s, i + 4) == EOF_VALUE;
    assert s[i..i + 8] == [s[i], s[i + 1], s[i + 2], s[i + 3], s[i + 4], s[i + 5], s[i + 6], s[i + 7]];
  }

  ghost predicate MarkerFree(s: seq<byte>) {
    forall i :: !MarkerAt(s, i)
  }

  /** The first marker at or after `from`, or the end. */
  function Find(s: seq<byte>, from: nat): (i: nat)
    requires from <= |s|
    ensures from <= i <= |s|
    ensures forall j :: from <= j < i ==> !MarkerAt(s, j)
    ensures i < |s| ==> MarkerAt(s, i)
    decreases |s| - from
  {
    if from == |s| || MarkerAt(s, from) then from else Find(s, from + 1)
  }

  datatype Split = Split(pieces: seq<seq<byte>>, rest: seq<byte>)

  /** The non-empty stretches between markers, and what follows the last marker. */
  function Tokens(s: seq<byte>): Split
    decreases |s|
  {
    var i := Find(s, 0);
    if i == |s| then Split([], s)
    else
      var r := Tokens(s[i + 8..]);
      Split((if i == 0 then [] else [s[..i]]) + r.pieces, r.rest)
  }

  lemma FindUnique(s: seq<byte>, i: nat)
    requires i <= |s| && (forall j :: 0 <= j < i ==> !MarkerAt(s, j)) && (i < |s| ==> MarkerAt(s, i))
    ensures Find(s, 0) == i
  {
    var k := Find(s, 0);
    assert MarkerAt(s, k) || k == |s|;
    assert MarkerAt(s, i) || i == |s|;
  }

  lemma MarkerInPrefix(a: seq<byte>, b: seq<byte>, i: int)
    requires i + 8 <= |a|
    ensures MarkerAt(a + b, i) <==> MarkerAt(a, i)
  {
    if 0 <= i {
      assert (a + b)[i..i + 8] == a[i..i + 8];
    }
  }

  lemma {:induction false} RestMarkerFree(s: seq<byte>)
    ensures MarkerFree(Tokens(s).rest)
    decreases |s|
  {
    var i := Find(s, 0);
    if i == |s| {
    } else {
      RestMarkerFree(s[i + 8..]);
    }
  }

  function Append(x: Split, y: Split): Split {
    Split(x.pieces + y.pieces, y.rest)
  }

  /** Chunk independence: splitting a stream and carrying the rest over gives what the whole stream gives. */
  lemma {:induction false} ChunkIndependence(a: seq<byte>, b: seq<byte>)
    ensures Tokens(a + b) == Append(Tokens(a), Tokens(Tokens(a).rest + b))
    decreases |a|
  {
    hide MarkerAt, Find, Tokens, Ahead, Behind;
    if Find(a, 0) == |a| {
      TokensStop(a);
    } else {
      FirstMarkerStays(a, b);
      var x, y := Tokens(Behind(a)), Tokens(Tokens(Behind(a)).rest + b);
      TokensStep(a);
      TokensStep(a + b);
      BehindGrows(a, b);
      ChunkIndependence(Behind(a), b);
      assert Ahead(a) + (x.pieces + y.pieces) == Ahead(a) + x.pieces + y.pieces;
    }
  }

  /** The piece before the first marker, and what follows that marker. */
  function Ahead(s: seq<byte>): seq<seq<byte>> {
    if Find(s, 0) == 0 then [] else [s[..Find(s, 0)]]
  }

  function Behind(s: seq<byte>): seq<byte>
    requires Find(s, 0) < |s|
  {
    s[Find(s, 0) + 8..]
  }

  lemma TokensStop(s: seq<byte>)
    requires Find(s, 0) == |s|
    ensures Tokens(s) == Split([], s)
  {
  }

  lemma TokensStep(s: seq<byte>)
    requires Find(s, 0) < |s|
    ensures |Behind(s)| < |s|
    ensures Tokens(s) == Split(Ahead(s) + Tokens(Behind(s)).pieces, Tokens(Behind(s)).rest)
  {
  }

  lemma BehindGrows(a: seq<byte>, b: seq<byte>)
    requires Find(a + b, 0) == Find(a, 0) && Find(a, 0) + 8 <= |a|
    ensures Behind(a + b) == Behind(a) + b && Ahead(a + b) == Ahead(a)
  {
    hide Find;
    var i := Find(a, 0);
    assert (a + b)[i + 8..] == a[i + 8..] + b && (a + b)[..i] == a[..i];
  }

  /** More bytes do not move the first marker. */
  lemma FirstMarkerStays(a: seq<byte>, b: seq<byte>)
    requires Find(a, 0) < |a|
    ensures Find(a + b, 0) == Find(a, 0) && Find(a, 0) + 8 <= |a|
  {
    var i := Find(a, 0);
    forall j | 0 <= j <= i
      ensures MarkerAt(a + b, j) <==> MarkerAt(a, j)
    {
      MarkerInPrefix(a, b, j);
    }
    FindUnique(a + b, i);
  }

  /** All stretches before a marker, empty ones included. */
  function Parts(s: seq<byte>): seq<seq<byte>>
    decreases |s|
  {
    var i := Find(s, 0);
    if i == |s| then [] else [s[..i]] + Parts(s[i + 8..])
  }

  function Framed(parts: seq<seq<byte>>): seq<byte> {
    if parts == [] then [] else parts[0] + MARKER + Framed(parts[1..])
  }

  lemma {:induction false} FramedLast(parts: seq<seq<byte>>, p: seq<byte>)
    ensures Framed(parts + [p]) == Framed(parts) + (p + MARKER)
  {
    if parts == [] {
      assert [] + [p] == [p] && [p][1..] == [];
      assert p + MARKER + [] == p + MARKER && [] + (p + MARKER) == p + MARKER;
    } else {
      assert (parts + [p])[1..] == parts[1..] + [p];
      FramedLast(parts[1..], p);
      assert parts[0] + MARKER + (Framed(parts[1..]) + (p + MARKER)) == parts[0] + MARKER + Framed(parts[1..]) + (p + MARKER);
    }
  }

  function NonEmpty(parts: seq<seq<byte>>): seq<seq<byte>> {
    if parts == [] then [] else (if parts[0] == [] then [] else [parts[0]]) + NonEmpty(parts[1..])
  }

  ghost predicate AllMarkerFree(parts: seq<seq<byte>>) {
    forall i :: 0 <= i < |parts| ==> MarkerFree(parts[i])
  }

  /** Nothing is lost: a stream is its parts, framed, and the rest. */
  lemma {:induction false} PartsRebuild(s: seq<byte>)
    ensures Framed(Parts(s)) + Tokens(s).rest == s
    ensures Tokens(s).pieces == NonEmpty(Parts(s))
    ensures AllMarkerFree(Parts(s))
    decreases |s|
  {
    hide MarkerAt, Find, MarkerFree, Tokens, Parts, Framed, NonEmpty;
    HeadMarkerFree(s);
    if Find(s, 0) == |s| {
      TokensStop(s);
      PartsStop(s);
    } else {
      var head, tail := s[..Find(s, 0)], Behind(s);
      TokensStep(s);
      PartsRebuild(tail);
      PartsStep(head, tail, s);
      assert s == head + MARKER + tail;
      assert head + MARKER + Framed(Parts(tail)) + Tokens(tail).rest == head + MARKER + (Framed(Parts(tail)) + Tokens(tail).rest);
    }
  }

  lemma PartsStop(s: seq<byte>)
    requires Find(s, 0) == |s|
    ensures Parts(s) == [] && Framed(Parts(s)) + s == s && NonEmpty(Parts(s)) == []
  {
  }

  lemma PartsStep(head: seq<byte>, tail: seq<byte>, s: seq<byte>)
    requires Find(s, 0) < |s| && head == s[..Find(s, 0)] && tail == Behind(s)
    ensures Parts(s) == [head] + Parts(tail)
    ensures Framed(Parts(s)) == head + MARKER + Framed(Parts(tail))
    ensures NonEmpty(Parts(s)) == Ahead(s) + NonEmpty(Parts(tail))
  {
    assert Parts(s) == [head] + Parts(tail);
    assert Parts(s)[1..] == Parts(tail);
  }

  lemma MarkerRange(s: seq<byte>, j: int)
    requires MarkerAt(s, j)
    ensures 0 <= j && j + 8 <= |s| && s[j..j + 8] == MARKER
  {
  }

  lemma HeadMarkerFree(s: seq<byte>)
    ensures MarkerFree(s[..Find(s, 0)])
    ensures Find(s, 0) < |s| ==> Find(s, 0) + 8 <= |s| && s[Find(s, 0)..Find(s, 0) + 8] == MARKER
  {
    hide MarkerAt, Find;
    var i := Find(s, 0);
    var head := s[..i];
    assert s == head + s[i..];
    forall j
      ensures !MarkerAt(head, j)
    {
      if MarkerAt(head, j) {
        MarkerRange(head, j);
        MarkerInPrefix(head, s[i..], j);
        assert false;
      }
    }
    if i < |s| {
      MarkerRange(s, i);
    }
  }

  /** The marker has no border: behind a marker-free payload it is the first marker. */
  lemma MarkerEndsPayload(p: seq<byte>, rest: seq<byte>)
    requires MarkerFree(p)
    ensures Find(p + MARKER + rest, 0) == |p|
  {
    var s := p + MARKER + rest;
    forall j | 0 <= j < |p|
      ensures !MarkerAt(s, j)
    {
      if j + 8 <= |p| {
        assert s[j..j + 8] == p[j..j + 8];
        assert !MarkerAt(p, j);
      } else {
        var d := |p| - j;
        assert s[j..j + 8][7] == s[j + 7] == MARKER[7 - d];
        assert MARKER[7 - d] != MARKER[7];
      }
    }
    assert s[|p|..|p| + 8] == MARKER;
    FindUnique(s, |p|);
  }

  /**
    The tokens of a stream are the only way to read it: however it is put together from marker-free parts
    and a marker-free rest, these (without the empty parts) are its tokens.
   */
  lemma {:induction false} FramingUnique(parts: seq<seq<byte>>, rest: seq<byte>)
    requires AllMarkerFree(parts) && MarkerFree(rest)
    ensures Tokens(Framed(parts) + rest) == Split(NonEmpty(parts), rest)
  {
    if parts == [] {
      assert Framed(parts) + rest == rest;
      FindUnique(rest, |rest|);
    } else {
      var p, more := parts[0], Framed(parts[1..]) + rest;
      assert Framed(parts) + rest == p + MARKER + more;
      MarkerEndsPayload(p, more);
      assert (p + MARKER + more)[|p| + 8..] == more && (p + MARKER + more)[..|p|] == p;
      FramingUnique(parts[1..], rest);
    }
  }

  lemma {:induction false} NonEmptyAll(parts: seq<seq<byte>>)
    requires forall i :: 0 <= i < |parts| ==> parts[i] != []
    ensures NonEmpty(parts) == parts
  {
    if parts == [] {
    } else {
      NonEmptyAll(parts[1..]);
    }
  }

  /** Framing round trip: non-empty marker-free payloads come back exactly, with nothing left over. */
  lemma FramingRoundTrip(payloads: seq<seq<byte>>)
    requires AllMarkerFree(payloads) && forall i :: 0 <= i < |payloads| ==> payloads[i] != []
    ensures Tokens(Framed(payloads)) == Split(payloads, [])
  {
    assert Framed(payloads) + [] == Framed(payloads);
    FramingUnique(payloads, []);
    NonEmptyAll(payloads);
  }

  /** A single framed payload survives exactly when it is not empty and free of the marker. */
  lemma PayloadSurvivesExactly(p: seq<byte>)
    ensures Tokens(p + MARKER) == Split([p], []) <==> p != [] && MarkerFree(p)
  {
    assert Framed([p]) == p + MARKER by {
      assert [p][1..] == [] && p + MARKER + [] == p + MARKER;
    }
    if p != [] && MarkerFree(p) {
      FramingRoundTrip([p]);
    }
    if Tokens(p + MARKER) == Split([p], []) {
      PartsRebuild(p + MARKER);
      NonEmptyMember(Parts(p + MARKER), p);
    }
  }

  lemma {:induction false} NonEmptyMember(parts: seq<seq<byte>>, p: seq<byte>)
    requires p in NonEmpty(parts)
    ensures p in parts && p != []
  {
    if parts[0] == p && p != [] {
    } else {
      NonEmptyMember(parts[1..], p);
    }
  }
}
