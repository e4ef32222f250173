/** The rotary-encoder task of the calendar firmware (`are_update`): polls a
    16-bit quadrature counter, corrects wrap-around, accumulates the negated
    movement and emits it in steps of `SMOOTHING_FACTOR` counts. */
module Encoder {
  import opened Wrappers

  newtype u16 = x: int | 0 <= x < 0x1_0000

  const SMOOTHING_FACTOR: int := 4

  /** Rust's `/` on `i32`: the quotient truncated toward zero (Dafny's `/` is
      Euclidean and rounds toward minus infinity for negative `a`). */
  function TruncDiv(a: int, b: int): (q: int)
    requires b > 0
    ensures 0 <= a ==> 0 <= q && q * b <= a < q * b + b
    ensures a < 0 ==> q <= 0 && q * b - b < a <= q * b
  {
    if a >= 0 then a / b else -((-a) / b)
  }

  /** Rust's `%` on `i32`: the remainder takes the sign of the dividend. */
  function TruncRem(a: int, b: int): (r: int)
    requires b > 0
    ensures a == b * TruncDiv(a, b) + r
    ensures -b < r < b
    ensures 0 <= a ==> 0 <= r
    ensures a <= 0 ==> r <= 0
  {
    if a >= 0 then a % b else -((-a) % b)
  }

  /** The two operators disagree with Dafny's on a negative dividend. */
  lemma TruncatingNotEuclidean()
    ensures TruncDiv(-7, 4) == -1 && TruncRem(-7, 4) == -3
    ensures -7 / 4 == -2 && -7 % 4 == 1
  {
  }

  function Abs(a: int): int {
    if a < 0 then -a else a
  }

  /** Difference of two successive counter readings, corrected for one
      wrap-around of the 16-bit counter in either direction. */
  function CorrectedDelta(curr: u16, prev: u16): (d: int)
    ensures -32768 <= d <= 32767
    ensures (d - (curr as int - prev as int)) % 0x1_0000 == 0
  {
    var raw := curr as int - prev as int;
    if raw > 32767 then raw - 0x1_0000
    else if raw < -32768 then raw + 0x1_0000
    else raw
  }

  /** The corrected delta is the only value in [-32768, 32767] congruent to the
      raw difference modulo 2^16: it is the shortest way round the counter. */
  lemma CorrectedDeltaUnique(curr: u16, prev: u16, d: int)
    requires -32768 <= d <= 32767
    requires (d - (curr as int - prev as int)) % 0x1_0000 == 0
    ensures d == CorrectedDelta(curr, prev)
  {
    var c := CorrectedDelta(curr, prev);
    var raw := curr as int - prev as int;
    var k := (d - raw) / 0x1_0000;
    var m := (c - raw) / 0x1_0000;
    assert d == raw + k * 0x1_0000;
    assert c == raw + m * 0x1_0000;
    assert d - c == (k - m) * 0x1_0000;
  }

  /** The task's local state between two polls. */
  datatype Decoder = Decoder(prevCount: u16, acc: int)

  /** Output of one poll: the emitted value, 0 when nothing was sent. */
  function Emitted(out: Option<int>): int {
    match out
    case None => 0
    case Some(e) => e
  }

  /** One iteration of the polling loop: the new state and the value sent,
      if any. */
  function Poll(s: Decoder, curr: u16): (r: (Decoder, Option<int>))
    ensures r.0.prevCount == curr
    ensures -SMOOTHING_FACTOR < r.0.acc < SMOOTHING_FACTOR
    ensures SMOOTHING_FACTOR * Emitted(r.1) + r.0.acc == s.acc - CorrectedDelta(curr, s.prevCount)
    ensures r.1.Some? <==> Abs(s.acc - CorrectedDelta(curr, s.prevCount)) >= SMOOTHING_FACTOR
    ensures r.1.Some? ==> r.1.value != 0 && (r.1.value > 0 <==> s.acc - CorrectedDelta(curr, s.prevCount) > 0)
    ensures r.0.acc != 0 ==> (r.0.acc > 0 <==> s.acc - CorrectedDelta(curr, s.prevCount) > 0)
  {
    var acc := s.acc - CorrectedDelta(curr, s.prevCount);
    if Abs(acc) >= SMOOTHING_FACTOR then
      (Decoder(curr, TruncRem(acc, SMOOTHING_FACTOR)), Some(TruncDiv(acc, SMOOTHING_FACTOR)))
    else
      (Decoder(curr, acc), None)
  }

  /** Starting from a settled accumulator, one output is at most 8192 in size,
      so it and the accumulator stay far inside `i32`. */
  lemma PollOutputBound(s: Decoder, curr: u16)
    requires -SMOOTHING_FACTOR < s.acc < SMOOTHING_FACTOR
    ensures -8192 <= Emitted(Poll(s, curr).1) <= 8192
  {
    var acc := s.acc - CorrectedDelta(curr, s.prevCount);
    assert -32770 <= acc <= 32771;
    var r := Poll(s, curr);
    if r.1.Some? {
      var e := r.1.value;
      assert 4 * e + r.0.acc == acc;
    }
  }

  function OutputSeq(out: Option<int>): seq<int> {
    match out
    case None => []
    case Some(e) => [e]
  }

  function LastCount(initial: u16, counts: seq<u16>): u16 {
    if counts == [] then initial else counts[|counts| - 1]
  }

  /** The state after polling `counts` in order, and every value sent. */
  function PollAll(s: Decoder, counts: seq<u16>): (r: (Decoder, seq<int>))
    ensures r.0.prevCount == LastCount(s.prevCount, counts)
    ensures counts != [] ==> -SMOOTHING_FACTOR < r.0.acc < SMOOTHING_FACTOR
    ensures forall k :: 0 <= k < |r.1| ==> r.1[k] != 0
    decreases |counts|
  {
    if counts == [] then (s, [])
    else
      var before := PollAll(s, counts[..|counts| - 1]);
      var step := Poll(before.0, counts[|counts| - 1]);
      (step.0, before.1 + OutputSeq(step.1))
  }

  /** Sum of the corrected deltas between consecutive readings. */
  function TotalDelta(initial: u16, counts: seq<u16>): int
    decreases |counts|
  {
    if counts == [] then 0
    else
      var prefix := counts[..|counts| - 1];
      TotalDelta(initial, prefix) + CorrectedDelta(counts[|counts| - 1], LastCount(initial, prefix))
  }

  function Sum(xs: seq<int>): int {
    if xs == [] then 0 else Sum(xs[..|xs| - 1]) + xs[|xs| - 1]
  }

  lemma SumAppend(xs: seq<int>, ys: seq<int>)
    ensures Sum(xs + ys) == Sum(xs) + Sum(ys)
    decreases |ys|
  {
    if ys != [] {
      assert (xs + ys)[..|xs + ys| - 1] == xs + ys[..|ys| - 1];
      SumAppend(xs, ys[..|ys| - 1]);
    } else {
      assert xs + ys == xs;
    }
  }

  /** Nothing is lost to smoothing: four times everything sent, plus what is
      left in the accumulator, is the negated net movement of the counter. */
  lemma {:induction false} Conservation(s: Decoder, counts: seq<u16>)
    ensures SMOOTHING_FACTOR * Sum(PollAll(s, counts).1) + PollAll(s, counts).0.acc
            == s.acc - TotalDelta(s.prevCount, counts)
    decreases |counts|
  {
    if counts != [] {
      var prefix := counts[..|counts| - 1];
      var before := PollAll(s, prefix);
      Conservation(s, prefix);
      var step := Poll(before.0, counts[|counts| - 1]);
      SumAppend(before.1, OutputSeq(step.1));
      assert Sum(OutputSeq(step.1)) == Emitted(step.1);
    }
  }

  /** The summed corrections agree with the counter's own movement modulo
      2^16, across any number of wrap-arounds. */
  lemma {:induction false} TotalDeltaCongruent(initial: u16, counts: seq<u16>)
    ensures (TotalDelta(initial, counts) - (LastCount(initial, counts) as int - initial as int)) % 0x1_0000 == 0
    decreases |counts|
  {
    if counts != [] {
      var prefix := counts[..|counts| - 1];
      TotalDeltaCongruent(initial, prefix);
      var a := TotalDelta(initial, prefix) - (LastCount(initial, prefix) as int - initial as int);
      var b := CorrectedDelta(counts[|counts| - 1], LastCount(initial, prefix))
               - (counts[|counts| - 1] as int - LastCount(initial, prefix) as int);
      assert a % 0x1_0000 == 0 && b % 0x1_0000 == 0;
      assert a == (a / 0x1_0000) * 0x1_0000;
      assert b == (b / 0x1_0000) * 0x1_0000;
      assert a + b == (a / 0x1_0000 + b / 0x1_0000) * 0x1_0000;
    }
  }

  /** The task itself: reads the counter once before the loop, sends the
      initial 0, then polls `counts` in order. `sent` is every value handed
      to the channel's `send`, in order. */
  method AreUpdate(initial: u16, counts: seq<u16>) returns (sent: seq<int>, decoder: Decoder)
    ensures |sent| >= 1 && sent[0] == 0
    ensures (decoder, sent[1..]) == PollAll(Decoder(initial, 0), counts)
  {
    var prevCount := initial;
    var acc := 0;
    sent := [0];
    var i := 0;
    assert sent[1..] == [];
    assert counts[..0] == [];
    while i < |counts|
      invariant 0 <= i <= |counts|
      invariant |sent| >= 1 && sent[0] == 0
      invariant (Decoder(prevCount, acc), sent[1..]) == PollAll(Decoder(initial, 0), counts[..i])
    {
      ghost var before := Decoder(prevCount, acc);
      ghost var sentBefore := sent;
      var curr := counts[i];
      acc := acc - CorrectedDelta(curr, prevCount);
      if Abs(acc) >= SMOOTHING_FACTOR {
        sent := sent + [TruncDiv(acc, SMOOTHING_FACTOR)];
        acc := TruncRem(acc, SMOOTHING_FACTOR);
      }
      prevCount := curr;
      ghost var step := Poll(before, curr);
      assert Decoder(prevCount, acc) == step.0;
      assert sent[1..] == sentBefore[1..] + OutputSeq(step.1);
      assert counts[..i + 1][..i] == counts[..i];
      i := i + 1;
    }
    assert counts[..|counts|] == counts;
    decoder := Decoder(prevCount, acc);
  }

  /** Polling one more reading extends the run by one step. */
  lemma PollAllSnoc(s: Decoder, counts: seq<u16>, curr: u16, mid: Decoder, out: seq<int>)
    requires PollAll(s, counts).0 == mid && PollAll(s, counts).1 == out
    ensures PollAll(s, counts + [curr]).0 == Poll(mid, curr).0
    ensures PollAll(s, counts + [curr]).1 == out + OutputSeq(Poll(mid, curr).1)
  {
    assert (counts + [curr])[..|counts|] == counts;
  }

  /** Turning forward across the wrap (65534 to 2) is four counts of rising
      movement and sends -1. */
  lemma WrapForwardExample()
    ensures PollAll(Decoder(65534, 0), [2]).0 == Decoder(2, 0)
    ensures PollAll(Decoder(65534, 0), [2]).1 == [-1]
  {
    var e: seq<u16> := [];
    PollAllSnoc(Decoder(65534, 0), e, 2, Decoder(65534, 0), []);
    assert e + [2] == [2];
    assert CorrectedDelta(2, 65534) == 4;
    assert Poll(Decoder(65534, 0), 2) == (Decoder(2, 0), Some(-1));
  }

  /** Readings 100, 103, 65530, 65533: deltas +3, -109 (a backward wrap),
      +3; one value (26) is sent, and -1 is left over. */
  lemma BackwardWrapExample()
    ensures PollAll(Decoder(100, 0), [103, 65530, 65533]).0 == Decoder(65533, -1)
    ensures PollAll(Decoder(100, 0), [103, 65530, 65533]).1 == [26]
  {
    var s := Decoder(100, 0);
    var e: seq<u16> := [];
    assert CorrectedDelta(103, 100) == 3;
    assert Poll(s, 103) == (Decoder(103, -3), None);
    PollAllSnoc(s, e, 103, s, []);
    assert e + [103] == [103];
    assert CorrectedDelta(65530, 103) == -109;
    assert Poll(Decoder(103, -3), 65530) == (Decoder(65530, 2), Some(26));
    PollAllSnoc(s, [103], 65530, Decoder(103, -3), []);
    assert [103 as u16] + [65530] == [103, 65530];
    assert CorrectedDelta(65533, 65530) == 3;
    assert Poll(Decoder(65530, 2), 65533) == (Decoder(65533, -1), None);
    PollAllSnoc(s, [103, 65530], 65533, Decoder(65530, 2), [26]);
    assert [103 as u16, 65530] + [65533] == [103, 65530, 65533];
  }
}
