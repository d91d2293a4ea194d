/**
  The unbounded tape that a circular store stands for. A store of `n` samples holds the last `n`
  tape positions; position `p` lives in slot `p % n`.
 */
module Tape {
  import opened AudioTool

  /** The tape after a plain write of `frame` at position `at`. */
  function PlainTape(tape: seq<real>, at: nat, frame: seq<real>): seq<real>
    requires at <= |tape|
  {
    tape[..at] + frame
  }

  /** The tape after an overlap-add of `frame` at position `at`; positions not yet written count as zero. */
  function MixTape(tape: seq<real>, at: nat, frame: seq<real>): (t: seq<real>)
    ensures |t| == if |tape| < at + |frame| then at + |frame| else |tape|
  {
    seq(if |tape| < at + |frame| then at + |frame| else |tape|,
        p => OrZero(tape, p) + OrZero(frame, p - at))
  }

  function OrZero(s: seq<real>, i: int): real {
    if 0 <= i < |s| then s[i] else 0.0
  }

  /** The store holds the last `|buf|` positions of the tape. */
  ghost predicate Agrees(buf: seq<real>, tape: seq<real>) {
    && |buf| > 0
    && forall p :: 0 <= p < |tape| && |tape| - |buf| <= p ==> buf[p % |buf|] == tape[p]
  }

  /** Slots from `a` up to `b`, going round the end of the store when `b < a`. */
  predicate InArc(s: nat, a: nat, b: nat) {
    if b < a then a <= s || s < b else a <= s < b
  }

  /** How much of a run of `len` samples at slot `m` fits before the end of the store. */
  function BeforeEnd(m: nat, len: nat, n: nat): int {
    if m + len > n then n - m else len
  }

  /** The sample a write of `frame` from slot `m` brings to slot `s`. */
  function Incoming(s: nat, m: nat, frame: seq<real>, n: nat): real
    requires m < n && |frame| <= n
  {
    var copy := BeforeEnd(m, |frame|, n);
    if m <= s < m + copy then frame[s - m]
    else if s < |frame| - copy then frame[copy + s]
    else 0.0
  }

  predicate Covered(s: nat, m: nat, len: nat, n: nat) {
    var copy := BeforeEnd(m, len, n);
    m <= s < m + copy || s < len - copy
  }

  /** What a plain write leaves in the store. */
  function PlainStore(buf: seq<real>, w: nat, frame: seq<real>): seq<real>
    requires 0 < |buf| && |frame| <= |buf|
  {
    var n, m := |buf|, w % |buf|;
    seq(n, s requires 0 <= s < n => if Covered(s, m, |frame|, n) then Incoming(s, m, frame, n) else buf[s])
  }

  /** What an overlap-add leaves in the store: slots from the old upper position to the new one are
      cleared, then the frame is added. */
  function MixStore(buf: seq<real>, w: nat, u: nat, frame: seq<real>): seq<real>
    requires 0 < |buf| && |frame| <= |buf|
  {
    var n, m := |buf|, w % |buf|;
    seq(n, s requires 0 <= s < n =>
          (if InArc(s, u % n, (w + |frame|) % n) then 0.0 else buf[s]) + Incoming(s, m, frame, n))
  }

  lemma ModShift(w: nat, x: int, n: nat)
    requires n > 0 && 0 - n <= x <= n && 0 <= w + x
    ensures var m := w % n + x;
            (w + x) % n == if m < 0 then m + n else if m < n then m else m - n
  {
    var q, m := w / n, w % n + x;
    assert w == q * n + w % n;
    if m < 0 {
      DivModUnique(w + x, n, q - 1, m + n);
    } else if m < n {
      DivModUnique(w + x, n, q, m);
    } else {
      DivModUnique(w + x, n, q + 1, m - n);
    }
  }

  /** Seen over the last `n` positions below `hi`, the arc from `lo` to `hi` is exactly the positions from `lo` on. */
  lemma ArcIff(lo: nat, hi: nat, n: nat, p: nat)
    requires lo <= hi < lo + n && hi - n <= p < hi
    ensures InArc(p % n, lo % n, hi % n) <==> lo <= p
  {
    ModShift(lo, hi - lo, n);
    ModShift(lo, p - lo, n);
  }

  /** Seen over the last `n` positions below `w + len`, the covered slots are exactly those of the run. */
  lemma CoveredIff(w: nat, len: nat, n: nat, p: nat)
    requires 0 < n && len <= n && w + len - n <= p < w + len
    ensures Covered(p % n, w % n, len, n) <==> w <= p
  {
    ModShift(w, p - w, n);
  }

  lemma IncomingIs(w: nat, frame: seq<real>, n: nat, p: nat)
    requires 0 < n && |frame| <= n && w + |frame| - n <= p < w + |frame|
    ensures Incoming(p % n, w % n, frame, n) == OrZero(frame, p - w)
  {
    ModShift(w, p - w, n);
  }

  /** A plain write that ends at or after the end of the tape keeps the store in step with it. */
  lemma PlainStep(buf: seq<real>, tape: seq<real>, w: nat, frame: seq<real>)
    requires Agrees(buf, tape) && |frame| <= |buf| && w <= |tape| <= w + |frame|
    ensures Agrees(PlainStore(buf, w, frame), PlainTape(tape, w, frame))
  {
    var n, after := |buf|, PlainTape(tape, w, frame);
    forall p | 0 <= p < |after| && |after| - n <= p
      ensures PlainStore(buf, w, frame)[p % n] == after[p]
    {
      CoveredIff(w, |frame|, n, p);
      IncomingIs(w, frame, n, p);
    }
  }

  /** An overlap-add may clear the slots of new positions only when they are fewer than the store. */
  predicate MixFits(w: int, u: int, len: nat, n: nat) {
    u <= w + len < u + n
  }

  lemma MixStep(buf: seq<real>, tape: seq<real>, w: nat, frame: seq<real>)
    requires Agrees(buf, tape) && |frame| <= |buf| && w <= |tape|
    requires MixFits(w, |tape|, |frame|, |buf|)
    ensures Agrees(MixStore(buf, w, |tape|, frame), MixTape(tape, w, frame))
  {
    var n, after := |buf|, MixTape(tape, w, frame);
    forall p | 0 <= p < |after| && |after| - n <= p
      ensures MixStore(buf, w, |tape|, frame)[p % n] == after[p]
    {
      ArcIff(|tape|, w + |frame|, n, p);
      IncomingIs(w, frame, n, p);
    }
  }

  /** After a reset the store is silent, so a stale upper position `u` clears nothing that matters. */
  lemma MixStepAfterReset(buf: seq<real>, u: nat, frame: seq<real>)
    requires 0 < |buf| && |frame| <= |buf|
    requires forall s :: 0 <= s < |buf| ==> buf[s] == 0.0
    ensures Agrees(MixStore(buf, 0, u, frame), MixTape([], 0, frame))
  {
    var n, after := |buf|, MixTape([], 0, frame);
    forall p | 0 <= p < |after| && |after| - n <= p
      ensures MixStore(buf, 0, u, frame)[p % n] == after[p]
    {
      IncomingIs(0, frame, n, p);
    }
  }

  ghost predicate MixAlwaysRefines(w: nat, u: nat, len: nat, n: nat)
    requires 0 < n && len <= n
  {
    forall buf: seq<real>, tape: seq<real>, frame: seq<real> ::
      |buf| == n && |tape| == u && |frame| == len && Agrees(buf, tape)
      ==> Agrees(MixStore(buf, w, u, frame), MixTape(tape, w, frame))
  }

  function Ones(n: nat): seq<real> { seq(n, i => 1.0) }

  /** What goes wrong for a store and a tape full of ones. */
  lemma MixMisfit(w: nat, u: nat, len: nat, n: nat)
    requires 0 < len <= n && w <= u <= w + n && !MixFits(w, u, len, n)
    ensures Agrees(Ones(n), Ones(u))
    ensures !Agrees(MixStore(Ones(n), w, u, Ones(len)), MixTape(Ones(u), w, Ones(len)))
  {
    var p := w + len - 1;
    var store, after := MixStore(Ones(n), w, u, Ones(len)), MixTape(Ones(u), w, Ones(len));
    IncomingIs(w, Ones(len), n, p);
    assert Incoming(p % n, w % n, Ones(len), n) == 1.0;
    if u <= w + len {
      assert w + len == u + n;
      ModShift(u, n, n);
      assert store[p % n] == 2.0 && after[p] == 1.0;
    } else {
      ModShift(u, p - u, n);
      ModShift(u, w + len - u, n);
      assert InArc(p % n, u % n, (w + len) % n);
      assert store[p % n] == 1.0 && after[p] == 2.0;
    }
  }

  /**
    The exact condition under which an overlap-add keeps store and tape in step for every content:
    the frame must not end before the upper position, and must not bring as many new positions as the
    store has slots (then the lower and upper clearing slots coincide and nothing is cleared).
   */
  lemma MixRefinesExactly(w: nat, u: nat, len: nat, n: nat)
    requires 0 < len <= n && w <= u <= w + n
    ensures MixAlwaysRefines(w, u, len, n) <==> MixFits(w, u, len, n)
  {
    if MixFits(w, u, len, n) {
      forall buf: seq<real>, tape: seq<real>, frame: seq<real> |
        |buf| == n && |tape| == u && |frame| == len && Agrees(buf, tape)
        ensures Agrees(MixStore(buf, w, u, frame), MixTape(tape, w, frame))
      {
        MixStep(buf, tape, w, frame);
      }
    } else {
      MixMisfit(w, u, len, n);
    }
  }
}
