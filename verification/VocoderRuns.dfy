/**
  Whole runs of the time-stretcher: what a sequence of fetches delivers altogether, which of the samples
  are final, and how input consumed and output written are related.
 */
module VocoderRuns {
  import opened AudioTool
  import opened Tape
  import opened OverlapAdd
  import opened Ring
  import opened PhaseVocoder

  /** One call of `Get`. Input may be appended and rates changed between calls: each has its own source. */
  datatype Fetch = Fetch(source: Source, from: Progress, k: nat, wanted: nat, got: seq<real>, to: Progress) {
    ghost predicate Ok() {
      source.Ok() && 0.0 <= from.at && 0 < wanted && source.Fetches(from, k, wanted, got, to)
    }
  }

  /** Calls that follow each other, from `start` on. */
  ghost predicate Session(calls: seq<Fetch>, start: Progress) {
    calls == [] || (calls[0].Ok() && calls[0].from == start && Session(calls[1..], calls[0].to))
  }

  function End(calls: seq<Fetch>, start: Progress): Progress {
    if calls == [] then start else calls[|calls| - 1].to
  }

  /** Everything handed out, in order. */
  function Handed(calls: seq<Fetch>): seq<real> {
    if calls == [] then [] else calls[0].got + Handed(calls[1..])
  }

  lemma ShortSessions(a: Fetch, b: Fetch)
    requires a.Ok()
    ensures Session([a], a.from) && End([a], a.from) == a.to
    ensures b.Ok() && b.from == a.to ==> Session([a, b], a.from) && End([a, b], a.from) == b.to
  {
    assert [a][1..] == [] && [a, b][1..] == [b] && [b][1..] == [];
  }

  /** What one call changes. */
  lemma OneFetch(f: Fetch)
    requires f.Ok()
    ensures f.to.at == ReadPoint(f.from.at, f.k, f.source.s.step)
    ensures f.from.output.frames <= f.to.output.frames && |f.to.output.frames| == |f.from.output.frames| + f.k
    ensures f.to.output.delivered == f.from.output.delivered + f.got
    ensures f.to.output.hop == f.from.output.hop && f.to.output.len == f.from.output.len
    ensures f.to.output.Write() == f.from.output.Write() + f.k * f.from.output.hop
  {
    hide Source.Round, Source.Runs, IsTapeAt, ReadPoint, Mixed;
    f.source.AfterParts(f.from, f.k);
    assert (|f.from.output.frames| + f.k) * f.from.output.hop == f.from.output.Write() + f.k * f.from.output.hop;
  }

  /** What is handed out is appended to what was; frames are only ever added. */
  lemma {:induction false} SessionAppends(calls: seq<Fetch>, start: Progress)
    requires Session(calls, start)
    ensures End(calls, start).output.delivered == start.output.delivered + Handed(calls)
    ensures start.output.frames <= End(calls, start).output.frames
    ensures End(calls, start).output.hop == start.output.hop
  {
    hide Fetch.Ok, Output.Write;
    if calls == [] {
      assert start.output.delivered + [] == start.output.delivered;
    } else {
      OneFetch(calls[0]);
      SessionAppends(calls[1..], calls[0].to);
      var d, got := start.output.delivered, calls[0].got;
      assert d + (got + Handed(calls[1..])) == d + got + Handed(calls[1..]);
    }
  }

  /** The output side fits a ring of `n` samples, and the phases kept fit the frames rendered. */
  ghost predicate Fit(p: Progress, n: nat) {
    p.output.Ok(n) && |p.phase| == p.output.len
  }

  /** A source whose frames fit, and demands that leave room for one frame more. */
  ghost predicate Bounded(f: Fetch, len: nat, n: nat) {
    KeepsLength(f.source.m, len) && f.source.s.len == len && f.wanted + len <= n
  }

  lemma RoundFits(source: Source, p: Progress, n: nat)
    requires source.Ok() && 0.0 <= p.at && Fit(p, n)
    requires KeepsLength(source.m, p.output.len) && source.s.len == p.output.len
    requires p.output.Write() + p.output.len <= |p.output.delivered| + n
    ensures Fit(source.Round(p), n)
  {
    hide Output.Ok, RingRead;
    var s := source.s;
    var r := source.m(RingRead(source.store, p.at, s.interval, s.len), RingRead(source.store, p.at - s.back, s.interval, s.len), p.phase);
    p.output.AddFrame(r.frame, n);
  }

  lemma {:induction false} RoundsFit(f: Fetch, k: nat, n: nat)
    requires f.source.Ok() && 0.0 <= f.from.at && f.source.Runs(f.from, k, f.wanted)
    requires Fit(f.from, n) && Bounded(f, f.from.output.len, n)
    ensures Fit(f.source.After(f.from, k), n)
  {
    hide Fit, KeepsLength, Source.Round;
    if k == 0 {
    } else {
      RoundsFit(f, k - 1, n);
      f.source.AfterParts(f.from, k - 1);
      RoundFits(f.source, f.source.After(f.from, k - 1), n);
    }
  }

  lemma FetchFits(f: Fetch, n: nat)
    requires f.Ok() && Fit(f.from, n) && Bounded(f, f.from.output.len, n)
    ensures Fit(f.to, n) && f.to.output.len == f.from.output.len
  {
    hide KeepsLength, Output.Ok, IsTapeAt, Source.Runs, Source.After;
    var p := f.source.After(f.from, f.k);
    RoundsFit(f, f.k, n);
    f.source.AfterParts(f.from, f.k);
    p.output.Fitting(n);
    p.output.Deliver(f.got, n);
  }

  ghost predicate AllBounded(calls: seq<Fetch>, len: nat, n: nat) {
    forall i :: 0 <= i < |calls| ==> Bounded(calls[i], len, n)
  }

  lemma {:induction false} SessionFits(calls: seq<Fetch>, start: Progress, n: nat)
    requires Session(calls, start) && Fit(start, n) && AllBounded(calls, start.output.len, n)
    ensures Fit(End(calls, start), n)
  {
    hide Fit, Bounded, Fetch.Ok;
    if calls == [] {
      assert End(calls, start) == start;
    } else {
      FetchFits(calls[0], n);
      SessionFits(calls[1..], calls[0].to, n);
    }
  }

  /**
    The output of a whole session that starts with nothing handed out: the samples handed out, put together,
    are positions 0, 1, 2, ... of the overlap-add of all frames rendered, each exactly once; only those
    handed out early may differ. Later frames change nothing about it.
   */
  lemma SessionDelivers(calls: seq<Fetch>, start: Progress, n: nat, more: seq<seq<real>>, q: nat)
    requires Session(calls, start) && Fit(start, n) && AllBounded(calls, start.output.len, n)
    requires start.output.delivered == [] && AllOfLength(more, start.output.len)
    ensures var o := End(calls, start).output;
            && o.Ok(n) && |Handed(calls)| <= o.Write() + 1
            && (q < |Handed(calls)| && q !in o.provisional ==>
                  && Handed(calls)[q] == OrZero(Mixed(o.frames, o.hop), q)
                  && Handed(calls)[q] == OrZero(Mixed(o.frames + more, o.hop), q))
  {
    hide Bounded, Fetch.Ok, Mixed;
    var o := End(calls, start).output;
    SessionFits(calls, start, n);
    SessionAppends(calls, start);
    SessionKeepsLength(calls, start);
    assert o.delivered == Handed(calls);
    o.Fitting(n);
    if q < |Handed(calls)| && q !in o.provisional {
      assert o.Settled(q);
      DeliveredIsFinal(o, n, more, q);
    }
  }

  lemma {:induction false} SessionKeepsLength(calls: seq<Fetch>, start: Progress)
    requires Session(calls, start)
    ensures End(calls, start).output.len == start.output.len
  {
    if calls == [] {
      assert End(calls, start) == start;
    } else {
      OneFetch(calls[0]);
      SessionKeepsLength(calls[1..], calls[0].to);
    }
  }

  /**
    A sample that was not handed out early is the final value of its position: the closed-form sum over the
    frames that cover it, whatever frames are still to come.
   */
  lemma DeliveredIsFinal(o: Output, n: nat, more: seq<seq<real>>, p: nat)
    requires o.Ok(n) && AllOfLength(more, o.len)
    requires p < |o.delivered| && p !in o.provisional
    ensures var all := o.frames + more;
            && o.delivered[p] == OrZero(Mixed(all, o.hop), p)
            && o.delivered[p] == RangeSum(all, o.hop, p, FirstCover(p, o.hop, o.len), EndCover(p, o.hop, |all|))
  {
    hide Mixed, RangeSum;
    assert o.Settled(p);
    MixedFinal(o.frames, more, o.hop, p);
    o.WriteOnTape();
    var all := o.frames + more;
    MixedLength(o.frames, o.hop, o.len);
    MixedLength(all, o.hop, o.len);
    MulMonotone(|o.frames| - 1, |all| - 1, o.hop);
    MixedClosedForm(all, o.hop, o.len, p);
  }

  /** How many frames a fetch of `wanted` samples needs. */
  function Needed(o: Output, wanted: nat): (m: nat)
    requires 0 < o.hop
  {
    var missing := wanted - (o.Write() - |o.delivered|);
    if missing <= 0 then 0 else (missing + o.hop - 1) / o.hop
  }

  lemma NeededIsLeast(o: Output, wanted: nat, k: nat)
    requires 0 < o.hop
    ensures k < Needed(o, wanted) <==> o.Write() + k * o.hop - |o.delivered| < wanted
  {
    hide Output.Write;
    var missing := wanted - (o.Write() - |o.delivered|);
    if missing > 0 {
      DivAtLeast(missing + o.hop - 1, o.hop, k + 1);
      assert (k + 1) * o.hop == k * o.hop + o.hop;
    }
  }

  /** There is input for the `j`-th round from here. */
  ghost predicate FrameLeftAt(f: Fetch, j: nat) {
    f.source.write - Trunc(ReadPoint(f.from.at, j, f.source.s.step)) > Ceil(f.source.s.Span())
  }

  /** Before the call: there is input for every frame needed, which is so if there is for the last one. */
  ghost predicate Complete(f: Fetch)
    requires 0 < f.from.output.hop
  {
    var m := Needed(f.from.output, f.wanted);
    m == 0 || FrameLeftAt(f, m - 1)
  }

  lemma FrameLeftEarlier(f: Fetch, i: nat, j: nat)
    requires 0.0 <= f.from.at && 0.0 <= f.source.s.step && i <= j && FrameLeftAt(f, j)
    ensures FrameLeftAt(f, i)
  {
    assert 0.0 <= (j - i) as real * f.source.s.step;
    assert ReadPoint(f.from.at, j, f.source.s.step) - ReadPoint(f.from.at, i, f.source.s.step) == (j - i) as real * f.source.s.step;
    assert 0.0 <= i as real * f.source.s.step;
  }

  /** What the loop's guard says after `j` rounds, in terms of where they started. */
  lemma WantsAt(f: Fetch, j: nat)
    requires f.source.Ok() && 0.0 <= f.from.at && 0 < f.from.output.hop
    ensures f.source.FrameLeft(f.source.After(f.from, j)) <==> FrameLeftAt(f, j)
    ensures f.source.Wants(f.source.After(f.from, j), f.wanted) <==> FrameLeftAt(f, j) && j < Needed(f.from.output, f.wanted)
    ensures var o := f.source.After(f.from, j).output;
            o.Write() == f.from.output.Write() + j * f.from.output.hop && o.delivered == f.from.output.delivered
  {
    hide Source.Round, Needed;
    f.source.AfterParts(f.from, j);
    NeededIsLeast(f.from.output, f.wanted, j);
    assert (|f.from.output.frames| + j) * f.from.output.hop == f.from.output.Write() + j * f.from.output.hop;
  }

  /** A call makes all the rounds needed exactly if there is input for them, and never more. */
  lemma CompleteExactly(f: Fetch)
    requires f.Ok() && 0 < f.from.output.hop
    ensures f.k <= Needed(f.from.output, f.wanted)
    ensures f.k == Needed(f.from.output, f.wanted) <==> Complete(f)
    ensures f.k == 0 <==> Needed(f.from.output, f.wanted) == 0 || !FrameLeftAt(f, 0)
  {
    hide Needed, FrameLeftAt, Source.Wants, Source.FrameLeft, IsTapeAt;
    var m := Needed(f.from.output, f.wanted);
    WantsAt(f, f.k);
    if f.k > 0 {
      assert f.source.Runs(f.from, f.k, f.wanted);
      WantsAt(f, f.k - 1);
      FrameLeftEarlier(f, 0, f.k - 1);
    }
    if m > 0 && FrameLeftAt(f, m - 1) && f.k < m {
      FrameLeftEarlier(f, f.k, m - 1);
    }
  }

  /** Before the call: it will run out of input, and not because the one sample ahead was the last thing left. */
  ghost predicate RunsShort(f: Fetch)
    requires 0 < f.from.output.hop
  {
    !Complete(f) && (|f.from.output.delivered| <= f.from.output.Write() || FrameLeftAt(f, 0))
  }

  /**
    A call hands out one position early, the write position it reaches, exactly when there is not enough
    input for the samples wanted, which can be told before the call; the only exception is a call that finds neither
    input nor output, and hands out nothing.
   */
  lemma EarlyExactly(f: Fetch, n: nat)
    requires f.Ok() && f.from.output.Ok(n)
    ensures f.to.output.provisional == f.from.output.provisional + (if RunsShort(f) then {f.to.output.Write()} else {})
    ensures Complete(f) <==> f.to.output.Write() - |f.from.output.delivered| >= f.wanted
    ensures Complete(f) ==> |f.got| == f.wanted
    ensures !Complete(f) ==> |f.got| == f.to.output.Write() + 1 - |f.from.output.delivered|
  {
    hide Needed, FrameLeftAt, Source.Wants, Source.Runs, Source.After, Mixed;
    f.from.output.Fitting(n);
    var p := f.source.After(f.from, f.k);
    f.source.AfterParts(f.from, f.k);
    CompleteExactly(f);
    WantsAt(f, f.k);
    NeededIsLeast(f.from.output, f.wanted, f.k);
    assert f.to.output.Write() == p.output.Write();
    if f.k > 0 {
      assert f.k * f.from.output.hop >= f.from.output.hop;
    }
  }

  /** The first call of a new session, if it finds no input for a frame, hands out position zero, early. */
  lemma EarlyAtStart(f: Fetch, n: nat)
    requires f.Ok() && f.from.output.Ok(n) && f.wanted > 1
    requires f.from.output.frames == [] && f.from.output.delivered == [] && f.from.output.provisional == {}
    requires !FrameLeftAt(f, 0)
    ensures f.k == 0 && |f.got| == 1 && f.to.output.provisional == {0}
  {
    hide FrameLeftAt, Needed, Mixed;
    f.from.output.Fitting(n);
    CompleteExactly(f);
    NeededIsLeast(f.from.output, f.wanted, 0);
    EarlyExactly(f, n);
    OneFetch(f);
  }

  /** Handing a position out early is an error of the first sample of the next frame. */
  lemma EarlyIsUnfinished(frames: seq<seq<real>>, next: seq<real>, hop: nat)
    requires 0 < |next|
    ensures OrZero(Mixed(frames + [next], hop), Hops(|frames|, hop)) == OrZero(Mixed(frames, hop), Hops(|frames|, hop)) + next[0]
  {
    assert (frames + [next])[..|frames|] == frames;
  }

  /** Every call of the session that renders anything takes steps between `lo` and `hi` times the hop. */
  ghost predicate RatesWithin(calls: seq<Fetch>, hop: nat, lo: real, hi: real) {
    forall i :: 0 <= i < |calls| && calls[i].k > 0 ==> Proportional(calls[i].source.s.step, hop, lo, hi)
  }

  /** `consumed` lies between `lo` and `hi` times `written`. */
  predicate Proportional(consumed: real, written: int, lo: real, hi: real) {
    lo * written as real <= consumed <= hi * written as real
  }

  lemma StretchStep(step: real, k: nat, hop: nat, lo: real, hi: real)
    requires Proportional(step, hop, lo, hi)
    ensures Proportional(ReadPoint(0.0, k, step), k * hop, lo, hi)
  {
    var m, h := k as real, hop as real;
    assert (k * hop) as real == m * h;
    assert m * (lo * h) <= m * step <= m * (hi * h);
    assert m * (lo * h) == lo * (m * h) && m * (hi * h) == hi * (m * h);
  }

  lemma StretchAdd(c1: real, w1: int, c2: real, w2: int, lo: real, hi: real)
    requires Proportional(c1, w1, lo, hi) && Proportional(c2, w2, lo, hi)
    ensures Proportional(c1 + c2, w1 + w2, lo, hi)
  {
  }

  lemma FetchStretch(f: Fetch, lo: real, hi: real)
    requires f.Ok() && (f.k > 0 ==> Proportional(f.source.s.step, f.from.output.hop, lo, hi))
    ensures Proportional(f.to.at - f.from.at, f.to.output.Write() - f.from.output.Write(), lo, hi)
  {
    hide Output.Write, Fetch.Ok;
    OneFetch(f);
    if f.k > 0 {
      hide Proportional, ReadPoint;
      StretchStep(f.source.s.step, f.k, f.from.output.hop, lo, hi);
      PointFrom(f.from.at, f.k, f.source.s.step);
    }
  }

  /** Bounded time-stretch: input consumed stays between `lo` and `hi` times the output written, over any session. */
  lemma {:induction false} BoundedStretch(calls: seq<Fetch>, start: Progress, lo: real, hi: real)
    requires Session(calls, start) && RatesWithin(calls, start.output.hop, lo, hi)
    ensures var end := End(calls, start);
            Proportional(end.at - start.at, end.output.Write() - start.output.Write(), lo, hi)
  {
    hide Output.Write, Fetch.Ok;
    if calls == [] {
    } else {
      hide Proportional;
      var f, end := calls[0], End(calls, start);
      FetchStretch(f, lo, hi);
      OneFetch(f);
      BoundedStretch(calls[1..], f.to, lo, hi);
      StretchAdd(f.to.at - start.at, f.to.output.Write() - start.output.Write(),
                 end.at - f.to.at, end.output.Write() - f.to.output.Write(), lo, hi);
    }
  }

  lemma PointFrom(start: real, k: nat, step: real)
    ensures ReadPoint(start, k, step) == start + ReadPoint(0.0, k, step)
  {
  }

  lemma PointsUpTo(at: real, i: nat, j: nat, interval: real)
    requires 0.0 <= at && 0.0 <= interval && i <= j
    ensures 0.0 <= at <= ReadPoint(at, i, interval) <= ReadPoint(at, j, interval)
  {
    NotNegative(i, interval);
    NotNegative(j - i, interval);
    assert (j - i) as real * interval == j as real * interval - i as real * interval;
  }

  lemma NotNegative(n: nat, x: real)
    requires 0.0 <= x
    ensures 0.0 <= n as real * x
  {
  }

  /** The frame points lie on the tape if and only if the last one does. */
  lemma FrameOnTape(tape: seq<real>, at: real, interval: real, len: nat)
    requires 0.0 <= at && 0.0 <= interval && 0 < len
    ensures (forall i :: 0 <= i < len ==> OnTape(tape, ReadPoint(at, i, interval)))
       <==> OnTape(tape, ReadPoint(at, len - 1, interval))
  {
    var last := ReadPoint(at, len - 1, interval);
    if OnTape(tape, last) {
      forall i | 0 <= i < len
        ensures OnTape(tape, ReadPoint(at, i, interval))
      {
        PointsUpTo(at, i, len - 1, interval);
      }
    }
  }

  lemma OnTapeUpTo(tape: seq<real>, p: real)
    requires 0.0 <= p
    ensures OnTape(tape, p) <==> p <= (|tape| - 1) as real
  {
  }

  /** For every tape and read position, the loop's guard lets in only frames that lie wholly on the tape. */
  ghost predicate GuardSafe(rate: real, len: nat)
    requires 0 < len
  {
    forall tape: seq<real>, at: real :: 0.0 <= at && |tape| - Trunc(at) > Ceil(Scaled(rate, len))
                                        ==> OnTape(tape, ReadPoint(at, len - 1, rate))
  }

  /** What the last point of a frame may stick out beyond the whole samples of its span. */
  predicate Covers(rate: real, len: nat) {
    1.0 + Scaled(rate, len) - rate <= Ceil(Scaled(rate, len)) as real
  }

  lemma LastPoint(at: real, rate: real, len: nat)
    requires 0 < len
    ensures ReadPoint(at, len - 1, rate) == at + Scaled(rate, len) - rate
  {
  }

  /**
    The guard is safe exactly if rounding up the span of a frame makes up for the read position's fraction:
    exactly if `1 + (len - 1) * rate` is at most `len * rate`, rounded up.
   */
  lemma GuardSafeExactly(rate: real, len: nat)
    requires 0.0 <= rate && 0 < len
    ensures GuardSafe(rate, len) <==> Covers(rate, len)
  {
    hide Scaled, ReadPoint, OnTape;
    var span := Scaled(rate, len);
    if Covers(rate, len) {
      forall tape: seq<real>, at: real | 0.0 <= at && |tape| - Trunc(at) > Ceil(span)
        ensures OnTape(tape, ReadPoint(at, len - 1, rate))
      {
        LastPoint(at, rate, len);
        LastNotBefore(at, rate, len);
        OnTapeUpTo(tape, ReadPoint(at, len - 1, rate));
      }
    } else {
      LastNotBefore(0.0, rate, len);
      LastPoint(0.0, rate, len);
      var at := (Ceil(span) as real - span + rate + 1.0) / 2.0;
      var tape := Ones(Ceil(span) + 1);
      LastPoint(at, rate, len);
      LastNotBefore(at, rate, len);
      OnTapeUpTo(tape, ReadPoint(at, len - 1, rate));
      assert Trunc(at) == 0 && !OnTape(tape, ReadPoint(at, len - 1, rate));
    }
  }

  lemma LastNotBefore(at: real, rate: real, len: nat)
    requires 0.0 <= rate && 0 < len
    ensures at <= ReadPoint(at, len - 1, rate)
  {
    assert 0.0 <= (len - 1) as real * rate;
  }

  /** So for every rate of at least one and for 44100 over 48000, but not for one half. */
  lemma RatesCovered(rate: real, len: nat)
    requires 0 < len
    ensures 1.0 <= rate ==> Covers(rate, len)
    ensures Covers(44100.0 / 48000.0, 256) && !Covers(0.5, 256)
  {
    assert 256 as real == 256.0;
    assert Ceil(Scaled(0.5, 256)) == 128;
    assert Ceil(Scaled(44100.0 / 48000.0, 256)) == 236;
  }

  /** When the pitch rate is at least one, every frame that is due lies wholly on the tape. */
  lemma DueOnTape(tape: seq<real>, at: real, interval: real, len: nat)
    requires 0.0 <= at && 1.0 <= interval && 0 < len
    requires |tape| - Trunc(at) > Ceil(Scaled(interval, len))
    ensures OnTape(tape, ReadPoint(at, len - 1, interval))
  {
    hide Scaled, ReadPoint, OnTape, Covers;
    RatesCovered(interval, len);
    GuardSafeExactly(interval, len);
  }

  /** At pitch rate one half a due frame can interpolate with a slot that was never written. */
  lemma SlowPitchReadsBeyondTape()
    ensures exists tape: seq<real>, at: real ::
              0.0 <= at && |tape| - Trunc(at) > Ceil(Scaled(0.5, 256)) && !OnTape(tape, ReadPoint(at, 255, 0.5))
  {
    hide Scaled, ReadPoint, OnTape, Covers;
    RatesCovered(0.5, 256);
    GuardSafeExactly(0.5, 256);
  }

  /** The current frame is the input tape, resampled, as long as its first sample has not been overwritten. */
  lemma FrameFromTape(store: seq<real>, tape: seq<real>, at: real, interval: real, len: nat)
    requires Agrees(store, tape) && 0.0 <= at && 0.0 <= interval && 0 < len
    requires |tape| - |store| <= at.Floor && OnTape(tape, ReadPoint(at, len - 1, interval))
    ensures forall i :: 0 <= i < len ==>
                          && OnTape(tape, ReadPoint(at, i, interval))
                          && RingRead(store, at, interval, len)[i] == TapeSample(tape, ReadPoint(at, i, interval))
  {
    FrameOnTape(tape, at, interval, len);
    forall i | 0 <= i < len
      ensures OnTape(tape, ReadPoint(at, i, interval))
      ensures RingRead(store, at, interval, len)[i] == TapeSample(tape, ReadPoint(at, i, interval))
    {
      assert 0.0 <= i as real * interval;
      RingSampleIsTape(store, tape, ReadPoint(at, i, interval));
    }
  }

  /**
    The second frame of a round starts `back` before the first: when the first lies on the tape, so does the second
    exactly if that much input has been passed already.
   */
  lemma BackFrameOnTape(tape: seq<real>, at: real, back: real, interval: real, len: nat)
    requires 0.0 <= at && 0.0 <= back && 0.0 <= interval && 0 < len && OnTape(tape, ReadPoint(at, len - 1, interval))
    ensures var start := at - back; (forall i :: 0 <= i < len ==> OnTape(tape, ReadPoint(start, i, interval))) <==> back <= at
  {
    var start := at - back;
    if back <= at {
      LastNotBefore(start, interval, len);
      LastNotBefore(at, interval, len);
      OnTapeUpTo(tape, ReadPoint(at, len - 1, interval));
      OnTapeUpTo(tape, ReadPoint(start, len - 1, interval));
      assert ReadPoint(start, len - 1, interval) == ReadPoint(at, len - 1, interval) - back;
      FrameOnTape(tape, start, interval, len);
    } else {
      var first: nat := 0;
      FirstPoint(start, interval);
      assert start.Floor < 0;
      assert !OnTape(tape, ReadPoint(start, first, interval));
    }
  }
}
