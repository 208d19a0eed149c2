/**
 Paced replay of one streamed message: what a push, a frame and a flush do to
 its buffers and to the chunks already delivered. Times and rates are reals; the
 exponential weights are arbitrary numbers strictly between 0 and 1; grapheme
 segmentation is an arbitrary partition of a buffer into non-empty pieces.
 */
module SmootherMessage {
  import opened Prelude

  const START_BUFFER_MS := 180.0
  const RATE_SAMPLE_MS := 200.0
  const CATCH_UP_MS := 600.0
  const MIN_CHARS_PER_SECOND := 32.0
  const MAX_FRAME_MS := 64.0

  // ------------------------------------------------------------ taking whole pieces

  /** How many of the first pieces fit in a count of characters. */
  function FitCount(pieces: seq<string>, count: int): (n: nat)
    ensures n <= |pieces|
  {
    if pieces == [] || |pieces[0]| > count then 0 else 1 + FitCount(pieces[1..], count - |pieces[0]|)
  }

  /** How many pieces a positive count takes: those that fit, and at least one. */
  function TakeCount(pieces: seq<string>, count: int): (n: nat)
    ensures n <= |pieces|
  {
    if pieces == [] || count <= 0 then 0
    else if FitCount(pieces, count) == 0 then 1
    else FitCount(pieces, count)
  }

  function Taken(pieces: seq<string>, count: int): string {
    Flatten(pieces[..TakeCount(pieces, count)])
  }

  function Rest(pieces: seq<string>, count: int): string {
    Flatten(pieces[TakeCount(pieces, count)..])
  }

  predicate Partition(pieces: seq<string>, value: string, longest: nat) {
    Flatten(pieces) == value && forall i :: 0 <= i < |pieces| ==> 0 < |pieces[i]| <= longest
  }

  lemma {:induction false} SplitFlatten(pieces: seq<string>, n: nat)
    requires n <= |pieces|
    ensures Flatten(pieces[..n]) + Flatten(pieces[n..]) == Flatten(pieces)
  {
    assert pieces[..n] + pieces[n..] == pieces;
    FlattenConcat(pieces[..n], pieces[n..]);
  }

  lemma {:induction false} TakenAndRest(pieces: seq<string>, count: int)
    ensures Taken(pieces, count) + Rest(pieces, count) == Flatten(pieces)
  {
    SplitFlatten(pieces, TakeCount(pieces, count));
  }

  lemma {:induction false} FitCountFits(pieces: seq<string>, count: int)
    requires count >= 0
    ensures var n := FitCount(pieces, count);
            |Flatten(pieces[..n])| <= count && (n < |pieces| ==> |Flatten(pieces[..n])| + |pieces[n]| > count)
  {
    if pieces != [] && |pieces[0]| <= count {
      FitCountFits(pieces[1..], count - |pieces[0]|);
      var n := FitCount(pieces, count);
      assert pieces[..n][1..] == pieces[1..][..n - 1];
    }
  }

  /**
   What is taken is more than the count only if it is a single piece; and less than it by
   less than a piece, if any is left.
   */
  lemma TakenBounds(pieces: seq<string>, value: string, longest: nat, count: int)
    requires Partition(pieces, value, longest) && count > 0
    ensures var taken := |Taken(pieces, count)|;
            && (taken <= count || taken <= longest)
            && (Rest(pieces, count) != "" ==> count - taken < longest)
  {
    FitCountFits(pieces, count);
    if pieces != [] && FitCount(pieces, count) == 0 {
      assert pieces[..1][1..] == [];
      assert Flatten(pieces[..1]) == pieces[0];
    }
  }

  /** A positive count always takes something, so a frame with a budget moves on. */
  lemma TakesSome(pieces: seq<string>, value: string, longest: nat, count: int)
    requires Partition(pieces, value, longest) && count > 0 && value != ""
    ensures Taken(pieces, count) != "" && |Rest(pieces, count)| < |value|
  {
    TakenAndRest(pieces, count);
    var n := TakeCount(pieces, count);
    assert n > 0 && pieces[..n][0] == pieces[0];
    assert pieces[..n] == [pieces[0]] + pieces[1..n];
    FlattenConcat([pieces[0]], pieces[1..n]);
    FirstOnly(pieces);
  }

  /** The number of pieces that fit is the only one that cannot be increased. */
  lemma {:induction false} FitCountIsOnly(pieces: seq<string>, count: int, n: nat)
    requires n <= |pieces| && |Flatten(pieces[..n])| <= count
    requires n < |pieces| ==> |Flatten(pieces[..n])| + |pieces[n]| > count
    ensures FitCount(pieces, count) == n
  {
    if n > 0 {
      assert pieces[..n][1..] == pieces[1..][..n - 1];
      FitCountIsOnly(pieces[1..], count - |pieces[0]|, n - 1);
    }
  }

  lemma FirstOnly(pieces: seq<string>)
    requires pieces != []
    ensures Flatten(pieces[..1]) == pieces[0]
  {
    assert pieces[..1] == [pieces[0]] && [pieces[0]][1..] == [];
  }

  /** Where the loop may stop: behind the last piece that fits, or behind a first piece that does not. */
  lemma StopsThere(pieces: seq<string>, count: int, n: nat)
    requires count > 0 && 0 < n <= |pieces|
    requires var end := |Flatten(pieces[..n])|;
             (end <= count && (n < |pieces| ==> end + |pieces[n]| > count)) || (n == 1 && end > count)
    ensures TakeCount(pieces, count) == n
  {
    if |Flatten(pieces[..n])| <= count {
      FitCountIsOnly(pieces, count, n);
    } else {
      FirstOnly(pieces);
    }
  }

  lemma OneMore(pieces: seq<string>, i: nat)
    requires i < |pieces|
    ensures |Flatten(pieces[..i + 1])| == |Flatten(pieces[..i])| + |pieces[i]|
  {
    assert pieces[..i + 1] == pieces[..i] + [pieces[i]];
    FlattenSnoc(pieces[..i], pieces[i]);
  }

  /** One pass of the loop over the pieces. */
  predicate Going(pieces: seq<string>, count: int, i: nat, end: nat) {
    i <= |pieces| && end == |Flatten(pieces[..i])| && (if i == 0 then end == 0 else 0 < end < count)
  }

  method BoundaryWithin(value: string, count: int, pieces: seq<string>, ghost longest: nat) returns (end: nat)
    requires Partition(pieces, value, longest) && 0 < count < |value|
    ensures end == |Taken(pieces, count)|
  {
    assert pieces[..|pieces|] == pieces;
    end := 0;
    var i := 0;
    while i < |pieces|
      invariant Going(pieces, count, i, end)
    {
      OneMore(pieces, i);
      if end + |pieces[i]| > count && end > 0 {
        StopsThere(pieces, count, i);
        return;
      }
      end := end + |pieces[i]|;
      i := i + 1;
      if end >= count {
        StopsThere(pieces, count, i);
        return;
      }
    }
    assert false;
  }

  method TakeFromBuffer(value: string, count: int, pieces: seq<string>,
                        ghost longest: nat) returns (emitted: string, rest: string)
    requires Partition(pieces, value, longest)
    ensures emitted == Taken(pieces, count) && rest == Rest(pieces, count)
  {
    TakenAndRest(pieces, count);
    if |value| == 0 || count <= 0 {
      NothingTaken(pieces, value, longest, count);
      return "", value;
    }
    if count >= |value| {
      assert pieces[..|pieces|] == pieces;
      StopsThere(pieces, count, |pieces|);
      return value, "";
    }
    var end := BoundaryWithin(value, count, pieces, longest);
    return value[..end], value[end..];
  }

  lemma NothingTaken(pieces: seq<string>, value: string, longest: nat, count: int)
    requires Partition(pieces, value, longest) && (value == "" || count <= 0)
    ensures Taken(pieces, count) == "" && Rest(pieces, count) == value
  {
    TakenAndRest(pieces, count);
  }

  // ------------------------------------------------------------ a message's controller

  datatype Delta = Delta(content: string, reasoning: string)

  datatype Controller = Controller(
    content: string,
    reasoning: string,
    frame: Option<nat>,
    lastFrameAt: real,
    sampleAt: real,
    sampleChars: nat,
    arrivalRate: real,
    rate: real,
    credit: real)
  {
    function Buffered(): nat {
      |content| + |reasoning|
    }
  }

  function Max(a: real, b: real): real {
    if a > b then a else b
  }

  function Min(a: real, b: real): real {
    if a < b then a else b
  }

  function NewController(now: real): Controller {
    Controller("", "", None, now + START_BUFFER_MS, now, 0, 0.0, 0.0, 0.0)
  }

  /** More text, and every 200 ms a new estimate of its rate; the frame is scheduled by the caller. */
  function Pushed(c: Controller, text: Delta, now: real, weight: real): Controller {
    var chars := c.sampleChars + |text.content| + |text.reasoning|;
    var more := c.(content := c.content + text.content, reasoning := c.reasoning + text.reasoning);
    if now - c.sampleAt >= RATE_SAMPLE_MS then
      var observed := chars as real * 1000.0 / (now - c.sampleAt);
      more.(arrivalRate := Approach(c.arrivalRate, observed, weight), sampleChars := 0, sampleAt := now)
    else more.(sampleChars := chars)
  }

  function Elapsed(c: Controller, now: real): real {
    if now > c.lastFrameAt then Min(now - c.lastFrameAt, MAX_FRAME_MS) else 0.0
  }

  /** Part of the way from one number to another. */
  function Approach(from: real, target: real, weight: real): real {
    from + (target - from) * weight
  }

  function TargetRate(c: Controller): real {
    Max(MIN_CHARS_PER_SECOND, Max(c.arrivalRate, c.Buffered() as real * 1000.0 / CATCH_UP_MS))
  }

  /**
   The rate moves part of the way to what arrives and to what clears the buffer in time,
   from there at the first frame.
   */
  function FrameRate(c: Controller, weight: real): real {
    Approach(if c.rate == 0.0 then TargetRate(c) else c.rate, TargetRate(c), weight)
  }

  /** What a frame adds to the credit. */
  function Accrual(c: Controller, now: real, weight: real): real {
    if now > c.lastFrameAt then FrameRate(c, weight) * Elapsed(c, now) / 1000.0 else 0.0
  }

  function Budget(c: Controller, now: real, weight: real): int {
    if now > c.lastFrameAt then (c.credit + Accrual(c, now, weight)).Floor else 0
  }

  /** What a frame delivers: whole pieces of the content, then of the reasoning with what is left of the budget. */
  function FrameDelta(c: Controller, now: real, weight: real, contentPieces: seq<string>,
                      reasoningPieces: seq<string>): Delta {
    var budget := Budget(c, now, weight);
    var content := Taken(contentPieces, budget);
    Delta(content, Taken(reasoningPieces, budget - |content|))
  }

  function Emitted(d: Delta): nat {
    |d.content| + |d.reasoning|
  }

  function Framed(c: Controller, now: real, weight: real, contentPieces: seq<string>,
                  reasoningPieces: seq<string>): Controller {
    if now <= c.lastFrameAt then c
    else
      var budget := Budget(c, now, weight);
      var delta := FrameDelta(c, now, weight, contentPieces, reasoningPieces);
      c.(lastFrameAt := now, rate := FrameRate(c, weight),
         credit := c.credit + Accrual(c, now, weight) - Emitted(delta) as real,
         content := Rest(contentPieces, budget),
         reasoning := Rest(reasoningPieces, budget - |delta.content|))
  }

  // ------------------------------------------------------------ one frame

  /** A controller between two events: the rate is unset or at least the minimum, the credit within a piece of zero. */
  predicate Paced(c: Controller, longest: nat) {
    && c.arrivalRate >= 0.0
    && (c.rate == 0.0 || c.rate >= MIN_CHARS_PER_SECOND)
    && c.credit >= 1.0 - longest as real
    && (c.Buffered() > 0 ==> c.credit < longest as real)
  }

  lemma ProductOfPositives(a: real, b: real)
    requires a >= 0.0 && b >= 0.0
    ensures a * b >= 0.0
  {
  }

  lemma Between(from: real, target: real, weight: real, low: real)
    requires from >= low && target >= low && 0.0 < weight < 1.0
    ensures Approach(from, target, weight) >= low
  {
    ProductOfPositives(from - low, 1.0 - weight);
    ProductOfPositives(target - low, weight);
    assert from + (target - from) * weight == low + (from - low) * (1.0 - weight) + (target - low) * weight;
  }

  lemma RateAtLeastMinimum(c: Controller, weight: real)
    requires c.rate == 0.0 || c.rate >= MIN_CHARS_PER_SECOND
    requires 0.0 < weight < 1.0
    ensures FrameRate(c, weight) >= MIN_CHARS_PER_SECOND
  {
    Between(if c.rate == 0.0 then TargetRate(c) else c.rate, TargetRate(c), weight, MIN_CHARS_PER_SECOND);
  }

  /** The rate that keeps up with the sender, clears the buffer in 600 ms, and is not below 32 characters a second. */
  predicate Suffices(rate: real, c: Controller) {
    rate >= 32.0 && rate >= c.arrivalRate && rate * 0.6 >= c.Buffered() as real
  }

  lemma Approaches(from: real, target: real, weight: real)
    ensures Approach(from, target, weight) - from == (target - from) * weight
    ensures target - Approach(from, target, weight) == (target - from) * (1.0 - weight)
  {
  }

  /** From the other end it is the rest of the way. */
  lemma FromOtherEnd(from: real, target: real, weight: real)
    ensures Approach(from, target, weight) == Approach(target, from, 1.0 - weight)
  {
  }

  lemma Rises(from: real, target: real, weight: real)
    requires 0.0 < weight < 1.0 && from < target
    ensures from < Approach(from, target, weight) < target
  {
    Approaches(from, target, weight);
    ProductIsPositive(target - from, weight);
    ProductIsPositive(target - from, 1.0 - weight);
  }

  lemma Falls(from: real, target: real, weight: real)
    requires 0.0 < weight < 1.0 && target < from
    ensures target < Approach(from, target, weight) < from
  {
    FromOtherEnd(from, target, weight);
    Rises(target, from, 1.0 - weight);
  }

  lemma Toward(from: real, target: real, weight: real)
    requires 0.0 < weight < 1.0
    ensures from < target ==> from < Approach(from, target, weight) < target
    ensures target < from ==> target < Approach(from, target, weight) < from
    ensures from == target ==> Approach(from, target, weight) == target
  {
    if from < target {
      Rises(from, target, weight);
    } else if target < from {
      Falls(from, target, weight);
    }
  }

  lemma ProductIsPositive(a: real, b: real)
    requires a > 0.0 && b > 0.0
    ensures a * b > 0.0
  {
  }

  /**
   A frame's rate. The first frame takes the least rate that suffices. Later a rate
   that does not suffice rises, one that is more than enough falls, and neither goes
   past the least one that suffices.
   */
  lemma RateFollowsDemand(c: Controller, weight: real, rate: real)
    requires 0.0 < weight < 1.0
    ensures c.rate == 0.0 ==> Suffices(FrameRate(c, weight), c) && (Suffices(rate, c) ==> FrameRate(c, weight) <= rate)
    ensures c.rate != 0.0 && !Suffices(c.rate, c) ==>
              c.rate < FrameRate(c, weight) && (Suffices(rate, c) ==> FrameRate(c, weight) < rate)
    ensures c.rate != 0.0 && Suffices(c.rate, c) ==> Suffices(FrameRate(c, weight), c) && FrameRate(c, weight) <= c.rate
    ensures c.rate != 0.0 && Suffices(c.rate, c) && Suffices(rate, c) && rate < c.rate ==> FrameRate(c, weight) < c.rate
  {
    TargetIsLeast(c, rate);
    TargetIsLeast(c, c.rate);
    TargetIsLeast(c, FrameRate(c, weight));
    Toward(if c.rate == 0.0 then TargetRate(c) else c.rate, TargetRate(c), weight);
  }

  lemma TargetIsLeast(c: Controller, rate: real)
    ensures Suffices(rate, c) <==> rate >= TargetRate(c)
  {
  }

  /** A frame accounts for the time since the last one, but for no more than 64 ms of it. */
  lemma FrameTimeIsCapped(c: Controller, now: real)
    ensures 0.0 <= Elapsed(c, now) <= 64.0
    ensures 0.0 <= now - c.lastFrameAt <= 64.0 ==> Elapsed(c, now) == now - c.lastFrameAt
    ensures now - c.lastFrameAt >= 64.0 ==> Elapsed(c, now) == 64.0
  {
  }

  /** Nothing of a new message is shown in the first 180 ms, whatever is pushed meanwhile. */
  lemma StartIsDelayed(c: Controller, start: real, now: real, weight: real, contentPieces: seq<string>,
                       reasoningPieces: seq<string>)
    requires c.lastFrameAt == NewController(start).lastFrameAt && now <= start + 180.0
    ensures Framed(c, now, weight, contentPieces, reasoningPieces) == c && Budget(c, now, weight) == 0
  {
  }

  /**
   What a push measures. Within 200 ms of the last sample it only counts characters;
   else the arrival rate moves toward the characters per second since then, and the
   count starts again.
   */
  lemma PushMeasures(c: Controller, text: Delta, now: real, weight: real, observed: real)
    requires 0.0 < weight < 1.0
    requires now - c.sampleAt >= 200.0 ==>
               observed * (now - c.sampleAt) == 1000.0 * (c.sampleChars + |text.content| + |text.reasoning|) as real
    ensures var after := Pushed(c, text, now, weight);
            && after.content == c.content + text.content && after.reasoning == c.reasoning + text.reasoning
            && if now - c.sampleAt < 200.0 then
                 && after.sampleChars == c.sampleChars + |text.content| + |text.reasoning|
                 && after.sampleAt == c.sampleAt && after.arrivalRate == c.arrivalRate
               else
                 && after.sampleChars == 0 && after.sampleAt == now
                 && (c.arrivalRate < observed ==> c.arrivalRate < after.arrivalRate < observed)
                 && (observed < c.arrivalRate ==> observed < after.arrivalRate < c.arrivalRate)
                 && (observed == c.arrivalRate ==> after.arrivalRate == observed)
  {
    if now - c.sampleAt >= 200.0 {
      var chars := c.sampleChars + |text.content| + |text.reasoning|;
      Quotient(observed, now - c.sampleAt, chars as real * 1000.0);
      Toward(c.arrivalRate, observed, weight);
    }
  }

  lemma Quotient(q: real, time: real, amount: real)
    requires time > 0.0 && q * time == amount
    ensures amount / time == q
  {
  }

  lemma RateTimesTime(rate: real, elapsed: real)
    requires rate >= MIN_CHARS_PER_SECOND && elapsed >= 0.0
    ensures rate * elapsed / 1000.0 >= 0.032 * elapsed
  {
  }

  /** A frame earns at least the minimum rate for the time it accounts for. */
  lemma AccrualAtLeastMinimum(c: Controller, now: real, weight: real)
    requires c.rate == 0.0 || c.rate >= MIN_CHARS_PER_SECOND
    requires 0.0 < weight < 1.0
    ensures Accrual(c, now, weight) >= 0.032 * Elapsed(c, now)
  {
    RateAtLeastMinimum(c, weight);
    RateTimesTime(FrameRate(c, weight), Elapsed(c, now));
  }

  predicate Segmented(c: Controller, contentPieces: seq<string>, reasoningPieces: seq<string>, longest: nat) {
    Partition(contentPieces, c.content, longest) && Partition(reasoningPieces, c.reasoning, longest)
  }

  /**
   Two buffers served from one budget: too much by less than a piece, too little, with
   text left, by less than a piece.
   */
  lemma BudgetKept(content: string, contentPieces: seq<string>, reasoning: string, reasoningPieces: seq<string>,
                   longest: nat, budget: int)
    requires Partition(contentPieces, content, longest) && Partition(reasoningPieces, reasoning, longest) &&
             longest >= 1
    ensures var remaining := budget - |Taken(contentPieces, budget)|;
            var over := remaining - |Taken(reasoningPieces, remaining)|;
            && (budget > 0 ==> over > 0 - longest)
            && (budget <= 0 ==> over == budget)
            && (Rest(contentPieces, budget) != "" || Rest(reasoningPieces, remaining) != "" ==> over < longest)
  {
    if budget > 0 {
      TakenBounds(contentPieces, content, longest, budget);
      var remaining := budget - |Taken(contentPieces, budget)|;
      if remaining > 0 {
        TakenBounds(reasoningPieces, reasoning, longest, remaining);
      }
    }
  }

  lemma FrameKeepsPace(c: Controller, now: real, weight: real, contentPieces: seq<string>,
                       reasoningPieces: seq<string>, longest: nat)
    requires Paced(c, longest) && Segmented(c, contentPieces, reasoningPieces, longest) && longest >= 1 &&
             0.0 < weight < 1.0
    ensures Paced(Framed(c, now, weight, contentPieces, reasoningPieces), longest)
  {
    if now > c.lastFrameAt {
      RateAtLeastMinimum(c, weight);
      AccrualAtLeastMinimum(c, now, weight);
      BudgetKept(c.content, contentPieces, c.reasoning, reasoningPieces, longest, Budget(c, now, weight));
    }
  }

  lemma PushKeepsPace(c: Controller, text: Delta, now: real, weight: real, longest: nat)
    requires Paced(c, longest) && c.credit < longest as real && 0.0 < weight < 1.0
    ensures Paced(Pushed(c, text, now, weight), longest)
  {
    if now - c.sampleAt >= RATE_SAMPLE_MS {
      var chars := c.sampleChars + |text.content| + |text.reasoning|;
      ObservedNotNegative(chars as real * 1000.0, now - c.sampleAt);
      Between(c.arrivalRate, chars as real * 1000.0 / (now - c.sampleAt), weight, 0.0);
    }
  }

  lemma ObservedNotNegative(amount: real, time: real)
    requires amount >= 0.0 && time > 0.0
    ensures amount / time >= 0.0
  {
  }
}
