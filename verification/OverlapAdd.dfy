/**
  Whole runs of overlap-add writes: equal-length frames laid down one hop apart, as
  PhaseVocoderMono::get writes them into its output ring.
 */
module OverlapAdd {
  import opened AudioTool
  import opened Tape

  /** The tape after mixing in `frames` one after the other, frame `j` at position `j * hop`. */
  function Mixed(frames: seq<seq<real>>, hop: nat): seq<real> {
    if frames == [] then []
    else
      var k := |frames| - 1;
      MixTape(Mixed(frames[..k], hop), k * hop, frames[k])
  }

  ghost predicate AllOfLength(frames: seq<seq<real>>, len: nat) {
    forall j :: 0 <= j < |frames| ==> |frames[j]| == len
  }

  lemma {:induction false} MixedLength(frames: seq<seq<real>>, hop: nat, len: nat)
    requires AllOfLength(frames, len) && hop <= len
    ensures |Mixed(frames, hop)| == if frames == [] then 0 else (|frames| - 1) * hop + len
  {
    if |frames| <= 1 {
    } else {
      var k := |frames| - 1;
      MixedLength(frames[..k], hop, len);
      assert k * hop == (k - 1) * hop + hop;
    }
  }

  /** The sum, at tape position `p`, of frames `lo` up to `hi`. */
  function RangeSum(frames: seq<seq<real>>, hop: nat, p: int, lo: nat, hi: int): real
    requires hi <= |frames|
    decreases hi
  {
    if hi <= lo then 0.0
    else RangeSum(frames, hop, p, lo, hi - 1) + OrZero(frames[hi - 1], p - (hi - 1) * hop)
  }

  lemma {:induction false} RangeSumPrefix(frames: seq<seq<real>>, hop: nat, p: int, lo: nat, hi: int, k: nat)
    requires hi <= k <= |frames|
    ensures RangeSum(frames[..k], hop, p, lo, hi) == RangeSum(frames, hop, p, lo, hi)
    decreases hi
  {
    if hi <= lo {
    } else {
      RangeSumPrefix(frames, hop, p, lo, hi - 1, k);
    }
  }

  /** Every tape sample is the sum of what all frames bring to it. */
  lemma {:induction false} MixedIsSum(frames: seq<seq<real>>, hop: nat, p: nat)
    ensures OrZero(Mixed(frames, hop), p) == RangeSum(frames, hop, p, 0, |frames|)
  {
    if frames == [] {
    } else {
      var k := |frames| - 1;
      MixedIsSum(frames[..k], hop, p);
      RangeSumPrefix(frames, hop, p, 0, k, k);
    }
  }

  /** Frame `j` reaches tape position `p`. */
  predicate Reaches(frames: seq<seq<real>>, hop: nat, p: int, j: nat)
    requires j < |frames|
  {
    0 <= p - j * hop < |frames[j]|
  }

  lemma {:induction false} RangeSumZero(frames: seq<seq<real>>, hop: nat, p: int, lo: nat, hi: int)
    requires hi <= |frames|
    requires forall j :: lo <= j < hi ==> !Reaches(frames, hop, p, j)
    ensures RangeSum(frames, hop, p, lo, hi) == 0.0
    decreases hi
  {
    if hi <= lo {
    } else {
      RangeSumZero(frames, hop, p, lo, hi - 1);
      assert !Reaches(frames, hop, p, hi - 1);
    }
  }

  lemma {:induction false} RangeSumSplit(frames: seq<seq<real>>, hop: nat, p: int, lo: nat, mid: nat, hi: int)
    requires lo <= mid <= hi <= |frames|
    ensures RangeSum(frames, hop, p, lo, hi) == RangeSum(frames, hop, p, lo, mid) + RangeSum(frames, hop, p, mid, hi)
    decreases hi
  {
    if mid == hi {
    } else {
      RangeSumSplit(frames, hop, p, lo, mid, hi - 1);
    }
  }

  /** The first frame that reaches position `p`. */
  function FirstCover(p: nat, hop: nat, len: nat): nat
    requires hop > 0
  {
    if p < len then 0 else (p - len) / hop + 1
  }

  /** One past the last frame, among `k`, that starts at or before position `p`. */
  function EndCover(p: nat, hop: nat, k: nat): nat
    requires hop > 0
  {
    if p / hop + 1 < k then p / hop + 1 else k
  }

  /** The frames that cover position `p` are those from `FirstCover` up to `EndCover`. */
  lemma CoverRange(p: nat, hop: nat, len: nat, k: nat, j: nat)
    requires hop > 0 && j < k
    ensures FirstCover(p, hop, len) <= j < EndCover(p, hop, k) <==> j * hop <= p < j * hop + len
  {
    DivAtLeast(p, hop, j);
    if p >= len {
      DivAtLeast(p - len, hop, j);
    } else {
      assert 0 <= j * hop;
    }
  }

  lemma DivAtLeast(a: nat, b: nat, q: nat)
    requires b > 0
    ensures q <= a / b <==> q * b <= a
  {
    var d := a / b - q;
    assert a == a / b * b + a % b;
    assert d * b == a / b * b - q * b;
    MulGrows(d, b);
  }

  /**
    Closed form: sample `p` of the tape is the sum of `frames[j][p - j * hop]` over exactly the frames
    that cover `p`, of which there are at most `(len - 1) / hop + 1`.
   */
  lemma MixedClosedForm(frames: seq<seq<real>>, hop: nat, len: nat, p: nat)
    requires 0 < hop <= len && AllOfLength(frames, len) && p < |Mixed(frames, hop)|
    ensures var first, end := FirstCover(p, hop, len), EndCover(p, hop, |frames|);
            && first < end <= first + (len - 1) / hop + 1
            && (forall j :: 0 <= j < |frames| ==> (Reaches(frames, hop, p, j) <==> first <= j < end))
            && Mixed(frames, hop)[p] == RangeSum(frames, hop, p, first, end)
  {
    hide Mixed, RangeSum;
    var k, first, end := |frames|, FirstCover(p, hop, len), EndCover(p, hop, |frames|);
    MixedLength(frames, hop, len);
    forall j | 0 <= j < k
      ensures Reaches(frames, hop, p, j) <==> first <= j < end
    {
      CoverRange(p, hop, len, k, j);
    }
    CoverNotEmpty(p, hop, len, k);
    MixedIsSum(frames, hop, p);
    RangeSumSplit(frames, hop, p, 0, first, k);
    RangeSumSplit(frames, hop, p, first, end, k);
    RangeSumZero(frames, hop, p, 0, first);
    RangeSumZero(frames, hop, p, end, k);
  }

  lemma CoverNotEmpty(p: nat, hop: nat, len: nat, k: nat)
    requires 0 < hop <= len && 0 < k && p < (k - 1) * hop + len
    ensures FirstCover(p, hop, len) < EndCover(p, hop, k) <= FirstCover(p, hop, len) + (len - 1) / hop + 1
  {
    if p < len {
      DivMonotone(p, len - 1, hop);
    } else {
      CoverFar(p, hop, len, k);
    }
  }

  lemma CoverFar(p: nat, hop: nat, len: nat, k: nat)
    requires 0 < hop <= len <= p && 0 < k && p < (k - 1) * hop + len
    ensures var q := (p - len) / hop; q + 1 < k && q + 1 <= p / hop <= q + (len - 1) / hop + 1
  {
    var rest := p - len;
    DivAtLeast(rest, hop, k - 1);
    DivAddOne(rest, hop);
    DivMonotone(rest + hop, p, hop);
    DivSpread(rest, len - 1, hop);
    assert rest + (len - 1) + 1 == p;
  }

  lemma DivMonotone(a: nat, b: nat, d: nat)
    requires a <= b && d > 0
    ensures a / d <= b / d
  {
    DivAtLeast(a, d, a / d);
    DivAtLeast(b, d, a / d);
  }

  lemma DivAddOne(a: nat, d: nat)
    requires d > 0
    ensures (a + d) / d == a / d + 1
  {
    DivModUnique(a + d, d, a / d + 1, a % d);
  }

  lemma DivSpread(a: nat, b: nat, d: nat)
    requires d > 0
    ensures (a + b + 1) / d <= a / d + b / d + 1
  {
    DivAtLeast(a, d, a / d + 1);
    DivAtLeast(b, d, b / d + 1);
    DivAtLeast(a + b + 1, d, (a + b + 1) / d);
    Spread(a, b, d, a / d, b / d, (a + b + 1) / d);
  }

  lemma Spread(a: nat, b: nat, d: nat, x: nat, y: nat, q: nat)
    requires a < (x + 1) * d && b < (y + 1) * d && q * d <= a + b + 1
    ensures q <= x + y + 1
  {
    if x + y + 2 <= q {
      MulMonotone(x + y + 2, q, d);
      Distribute(x, y, d);
      assert false;
    }
  }

  lemma Distribute(x: nat, y: nat, d: nat)
    ensures (x + y + 2) * d == (x + 1) * d + (y + 1) * d
  {
  }

  lemma MulMonotone(a: nat, b: nat, d: nat)
    requires a <= b
    ensures a * d <= b * d
  {
  }

  /** Finality: positions below the write position after `k` frames keep their value under all later frames. */
  lemma {:induction false} MixedFinal(frames: seq<seq<real>>, more: seq<seq<real>>, hop: nat, p: nat)
    requires p < |frames| * hop
    ensures OrZero(Mixed(frames + more, hop), p) == OrZero(Mixed(frames, hop), p)
  {
    var all := frames + more;
    MixedIsSum(frames, hop, p);
    MixedIsSum(all, hop, p);
    assert all[..|frames|] == frames;
    RangeSumPrefix(all, hop, p, 0, |frames|, |frames|);
    RangeSumSplit(all, hop, p, 0, |frames|, |all|);
    forall j | |frames| <= j < |all|
      ensures !Reaches(all, hop, p, j)
    {
      MulMonotone(|frames|, j, hop);
    }
    RangeSumZero(all, hop, p, |frames|, |all|);
  }

  /** The store after the same run, starting from contents `buf` with upper position `u`. */
  function StoreRun(buf: seq<real>, u: nat, frames: seq<seq<real>>, hop: nat, len: nat): (r: seq<real>)
    requires 0 < |buf| && len <= |buf|
    requires forall j :: 0 <= j < |frames| ==> |frames[j]| == len
    ensures |r| == |buf|
  {
    if frames == [] then buf
    else
      var k := |frames| - 1;
      var upper := if k == 0 then u else (k - 1) * hop + len;
      MixStore(StoreRun(buf, u, frames[..k], hop, len), k * hop, upper, frames[k])
  }

  /** What a ring may start from: nothing cleared but nothing claimed (new), or cleared with a stale upper position. */
  ghost predicate Startable(buf: seq<real>, u: nat) {
    u == 0 || forall s :: 0 <= s < |buf| ==> buf[s] == 0.0
  }

  lemma AgreesWithNothing(buf: seq<real>)
    requires 0 < |buf|
    ensures Agrees(buf, [])
  {
  }

  /**
    The ring refines the tape over any run of overlap-adds, both for a new ring (`u == 0`, any contents)
    and for one that was reset (silent, any stale upper position).
   */
  lemma {:induction false} RunRefines(buf: seq<real>, u: nat, frames: seq<seq<real>>, hop: nat, len: nat)
    requires 0 < |buf| && hop <= len < |buf| && AllOfLength(frames, len) && Startable(buf, u)
    ensures Agrees(StoreRun(buf, u, frames, hop, len), Mixed(frames, hop))
  {
    hide MixStore, MixTape, Agrees;
    if frames == [] {
      AgreesWithNothing(buf);
    } else {
      var k := |frames| - 1;
      RunRefines(buf, u, frames[..k], hop, len);
      MixedLength(frames[..k], hop, len);
      assert k * hop >= 0;
      if k == 0 {
        AgreesWithNothing(buf);
        if u == 0 {
          MixStep(buf, [], 0, frames[0]);
        } else {
          MixStepAfterReset(buf, u, frames[0]);
        }
      } else {
        assert k * hop == (k - 1) * hop + hop;
        MixStep(StoreRun(buf, u, frames[..k], hop, len), Mixed(frames[..k], hop), k * hop, frames[k]);
      }
    }
  }

  /** A run after a reset leaves the same samples as the same run on a new ring, although the upper position was stale. */
  lemma ResetLikeNew(cleared: seq<real>, stale: nat, raw: seq<real>, frames: seq<seq<real>>, hop: nat, len: nat, p: nat)
    requires 0 < |cleared| == |raw| && hop <= len < |raw| && AllOfLength(frames, len)
    requires Startable(cleared, stale)
    requires p < |Mixed(frames, hop)| <= p + |raw|
    ensures StoreRun(cleared, stale, frames, hop, len)[p % |raw|] == StoreRun(raw, 0, frames, hop, len)[p % |raw|]
  {
    RunRefines(cleared, stale, frames, hop, len);
    RunRefines(raw, 0, frames, hop, len);
  }
}
