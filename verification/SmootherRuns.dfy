/** Whole runs of one streamed message: no text is lost or reordered, and frames are paced by the credit. */
module SmootherRuns {
  import opened Prelude
  import opened SmootherMessage

  /** A message: its controller while text is buffered, and the chunks delivered so far. */
  datatype Track = Track(controller: Option<Controller>, chunks: seq<Delta>)

  const EMPTY := Delta("", "")

  function FlushTrack(t: Track): Track {
    match t.controller
    case None => t
    case Some(c) =>
      Track(None, if c.Buffered() > 0 then t.chunks + [Delta(c.content, c.reasoning)] else t.chunks)
  }

  /** Immediate chunks carry tool calls, or motion is to be reduced. */
  function PushTrack(t: Track, text: Delta, immediate: bool, now: real, weight: real): Track {
    if immediate then
      var flushed := FlushTrack(t);
      flushed.(chunks := flushed.chunks + [text])
    else if text == EMPTY then t.(chunks := t.chunks + [text])
    else match t.controller
      case None => Track(Some(Pushed(NewController(now), text, now, weight)), t.chunks + [EMPTY])
      case Some(c) => t.(controller := Some(Pushed(c, text, now, weight)))
  }

  /** A controller without text is dropped. */
  function Kept(c: Controller): Option<Controller> {
    if c.Buffered() > 0 then Some(c) else None
  }

  /** A frame is no longer scheduled while it runs; one with a positive budget delivers a chunk. */
  function FrameTrack(t: Track, now: real, weight: real, contentPieces: seq<string>,
                      reasoningPieces: seq<string>): Track {
    match t.controller
    case None => t
    case Some(scheduled) =>
      var c := scheduled.(frame := None);
      Track(Kept(Framed(c, now, weight, contentPieces, reasoningPieces)),
            if Budget(c, now, weight) > 0 then t.chunks + [FrameDelta(c, now, weight, contentPieces, reasoningPieces)]
            else t.chunks)
  }

  // ------------------------------------------------------------ conservation

  function Join(a: Delta, b: Delta): Delta {
    Delta(a.content + b.content, a.reasoning + b.reasoning)
  }

  /** The texts of some chunks, one after the other. */
  function TextOf(chunks: seq<Delta>): Delta {
    if chunks == [] then EMPTY else Join(TextOf(chunks[..|chunks| - 1]), chunks[|chunks| - 1])
  }

  function TextLeft(c: Controller): Delta {
    Delta(c.content, c.reasoning)
  }

  function Buffer(t: Track): Delta {
    match t.controller case None => EMPTY case Some(c) => TextLeft(c)
  }

  /** Delivered, followed by buffered. */
  function Whole(t: Track): Delta {
    Join(TextOf(t.chunks), Buffer(t))
  }

  datatype Event =
    | Push(text: Delta, immediate: bool, now: real, weight: real)
    | Frame(now: real, weight: real, contentPieces: seq<string>, reasoningPieces: seq<string>)
    | Flush

  /** The pieces a frame is given partition the buffers. */
  predicate Fits(t: Track, e: Event, longest: nat) {
    e.Frame? && t.controller.Some? ==> Segmented(t.controller.value, e.contentPieces, e.reasoningPieces, longest)
  }

  function Step(t: Track, e: Event): Track {
    match e
    case Push(text, immediate, now, weight) => PushTrack(t, text, immediate, now, weight)
    case Frame(now, weight, contentPieces, reasoningPieces) =>
      FrameTrack(t, now, weight, contentPieces, reasoningPieces)
    case Flush => FlushTrack(t)
  }

  function Run(t: Track, events: seq<Event>): Track
    decreases |events|
  {
    if events == [] then t else Run(Step(t, events[0]), events[1..])
  }

  predicate AllFit(t: Track, events: seq<Event>, longest: nat)
    decreases |events|
  {
    events == [] || (Fits(t, events[0], longest) && AllFit(Step(t, events[0]), events[1..], longest))
  }

  /** Everything pushed, in order. */
  function PushedText(events: seq<Event>): Delta {
    if events == [] then EMPTY
    else Join(if events[0].Push? then events[0].text else EMPTY, PushedText(events[1..]))
  }

  lemma JoinAssociates(a: Delta, b: Delta, c: Delta)
    ensures Join(Join(a, b), c) == Join(a, Join(b, c)) && Join(a, EMPTY) == a && Join(EMPTY, a) == a
  {
    assert (a.content + b.content) + c.content == a.content + (b.content + c.content);
    assert (a.reasoning + b.reasoning) + c.reasoning == a.reasoning + (b.reasoning + c.reasoning);
  }

  lemma {:induction false} TextOfSnoc(chunks: seq<Delta>, d: Delta)
    ensures TextOf(chunks + [d]) == Join(TextOf(chunks), d)
  {
    assert (chunks + [d])[..|chunks|] == chunks;
  }

  lemma FlushConserves(t: Track)
    ensures Whole(FlushTrack(t)) == Whole(t) && FlushTrack(t).controller.None?
  {
    TextOfSnoc(t.chunks, Buffer(t));
    JoinAssociates(TextOf(t.chunks), Buffer(t), EMPTY);
    JoinAssociates(TextOf(FlushTrack(t).chunks), EMPTY, EMPTY);
    if t.controller.Some? && t.controller.value.Buffered() == 0 {
      assert Buffer(t) == EMPTY;
    }
  }

  lemma PushConserves(t: Track, text: Delta, immediate: bool, now: real, weight: real)
    ensures Whole(PushTrack(t, text, immediate, now, weight)) == Join(Whole(t), text)
  {
    if immediate {
      FlushConserves(t);
      var flushed := FlushTrack(t);
      TextOfSnoc(flushed.chunks, text);
      JoinAssociates(TextOf(flushed.chunks), EMPTY, text);
      JoinAssociates(TextOf(flushed.chunks), text, EMPTY);
    } else if text == EMPTY {
      TextOfSnoc(t.chunks, EMPTY);
      JoinAssociates(TextOf(t.chunks), EMPTY, Buffer(t));
      JoinAssociates(Whole(t), EMPTY, EMPTY);
    } else {
      TextOfSnoc(t.chunks, EMPTY);
      JoinAssociates(TextOf(t.chunks), EMPTY, text);
      JoinAssociates(TextOf(t.chunks), Buffer(t), text);
      JoinAssociates(text, EMPTY, EMPTY);
    }
  }

  /** A frame moves text from the buffer to the chunks. */
  lemma FrameMoves(c: Controller, now: real, weight: real, contentPieces: seq<string>,
                   reasoningPieces: seq<string>, longest: nat)
    requires Segmented(c, contentPieces, reasoningPieces, longest)
    ensures var after := Framed(c, now, weight, contentPieces, reasoningPieces);
            var delta := FrameDelta(c, now, weight, contentPieces, reasoningPieces);
            && Join(delta, TextLeft(after)) == TextLeft(c)
            && (Budget(c, now, weight) <= 0 ==> delta == EMPTY)
  {
    var budget := Budget(c, now, weight);
    TakenAndRest(contentPieces, budget);
    TakenAndRest(reasoningPieces, budget - |Taken(contentPieces, budget)|);
    if budget <= 0 {
      NothingTaken(contentPieces, c.content, longest, budget);
      NothingTaken(reasoningPieces, c.reasoning, longest, budget);
    }
  }

  lemma MovingConserves(chunks: seq<Delta>, delta: Delta, left: Delta, was: Delta, appended: bool)
    requires Join(delta, left) == was && (!appended ==> delta == EMPTY)
    ensures Join(TextOf(if appended then chunks + [delta] else chunks), left) == Join(TextOf(chunks), was)
  {
    TextOfSnoc(chunks, delta);
    JoinAssociates(TextOf(chunks), delta, left);
    JoinAssociates(left, EMPTY, EMPTY);
  }

  lemma KeptText(c: Controller, chunks: seq<Delta>)
    ensures Buffer(Track(Kept(c), chunks)) == TextLeft(c)
  {
    if c.Buffered() == 0 {
      assert c.content == "" && c.reasoning == "";
    }
  }

  lemma FrameConserves(t: Track, now: real, weight: real, contentPieces: seq<string>, reasoningPieces: seq<string>,
                       longest: nat)
    requires Fits(t, Frame(now, weight, contentPieces, reasoningPieces), longest)
    ensures Whole(FrameTrack(t, now, weight, contentPieces, reasoningPieces)) == Whole(t)
  {
    if t.controller.Some? {
      var c := t.controller.value.(frame := None);
      KeptText(Framed(c, now, weight, contentPieces, reasoningPieces),
               FrameTrack(t, now, weight, contentPieces, reasoningPieces).chunks);
      FrameMoves(c, now, weight, contentPieces, reasoningPieces, longest);
      MovingConserves(t.chunks, FrameDelta(c, now, weight, contentPieces, reasoningPieces),
                      TextLeft(Framed(c, now, weight, contentPieces, reasoningPieces)), TextLeft(c),
                      Budget(c, now, weight) > 0);
    }
  }

  lemma StepConserves(t: Track, e: Event, longest: nat)
    requires Fits(t, e, longest)
    ensures Whole(Step(t, e)) == Join(Whole(t), if e.Push? then e.text else EMPTY)
  {
    JoinAssociates(Whole(t), EMPTY, EMPTY);
    match e {
      case Push(text, immediate, now, weight) => PushConserves(t, text, immediate, now, weight);
      case Frame(now, weight, contentPieces, reasoningPieces) =>
        FrameConserves(t, now, weight, contentPieces, reasoningPieces, longest);
      case Flush => FlushConserves(t);
    }
  }

  /** Over any run, delivered followed by buffered is what there was, followed by everything pushed, in order. */
  lemma {:induction false} RunConserves(t: Track, events: seq<Event>, longest: nat)
    requires AllFit(t, events, longest)
    ensures Whole(Run(t, events)) == Join(Whole(t), PushedText(events))
    decreases |events|
  {
    if events == [] {
      JoinAssociates(Whole(t), EMPTY, EMPTY);
    } else {
      StepConserves(t, events[0], longest);
      RunConserves(Step(t, events[0]), events[1..], longest);
      JoinAssociates(Whole(t), if events[0].Push? then events[0].text else EMPTY, PushedText(events[1..]));
    }
  }

  /** After a flush, a fresh message shows exactly what was pushed. */
  lemma {:induction false} FlushShowsEverything(events: seq<Event>, longest: nat)
    requires AllFit(Track(None, []), events, longest)
    ensures TextOf(FlushTrack(Run(Track(None, []), events)).chunks) == PushedText(events)
  {
    var t := Run(Track(None, []), events);
    RunConserves(Track(None, []), events, longest);
    FlushConserves(t);
    JoinAssociates(TextOf(FlushTrack(t).chunks), EMPTY, EMPTY);
    JoinAssociates(PushedText(events), EMPTY, EMPTY);
  }

  // ------------------------------------------------------------ pacing

  /** What happens to one controller while it lives. */
  datatype Beat =
    | More(text: Delta, now: real, weight: real)
    | Tick(now: real, weight: real, contentPieces: seq<string>, reasoningPieces: seq<string>)

  function Beaten(c: Controller, b: Beat): Controller {
    match b
    case More(text, now, weight) => Pushed(c, text, now, weight)
    case Tick(now, weight, contentPieces, reasoningPieces) => Framed(c, now, weight, contentPieces, reasoningPieces)
  }

  function AfterBeats(c: Controller, beats: seq<Beat>): Controller
    decreases |beats|
  {
    if beats == [] then c else AfterBeats(Beaten(c, beats[0]), beats[1..])
  }

  /** A life: pieces partition the buffers, weights are proper, and only the last beat may empty the buffers. */
  predicate Lives(c: Controller, beats: seq<Beat>, longest: nat)
    decreases |beats|
  {
    beats != [] ==>
      && 0.0 < beats[0].weight < 1.0
      && (beats[0].Tick? ==> Segmented(c, beats[0].contentPieces, beats[0].reasoningPieces, longest))
      && (|beats| > 1 ==> Beaten(c, beats[0]).Buffered() > 0)
      && Lives(Beaten(c, beats[0]), beats[1..], longest)
  }

  /** Characters delivered by frames, credit earned, and time accounted for. */
  function Output(c: Controller, beats: seq<Beat>): int
    decreases |beats|
  {
    if beats == [] then 0
    else (if beats[0].Tick? && beats[0].now > c.lastFrameAt
          then Emitted(FrameDelta(c, beats[0].now, beats[0].weight, beats[0].contentPieces, beats[0].reasoningPieces))
          else 0)
         + Output(Beaten(c, beats[0]), beats[1..])
  }

  function Earned(c: Controller, beats: seq<Beat>): real
    decreases |beats|
  {
    if beats == [] then 0.0
    else (if beats[0].Tick? then Accrual(c, beats[0].now, beats[0].weight) else 0.0)
         + Earned(Beaten(c, beats[0]), beats[1..])
  }

  function Clock(c: Controller, beats: seq<Beat>): real
    decreases |beats|
  {
    if beats == [] then 0.0
    else (if beats[0].Tick? then Elapsed(c, beats[0].now) else 0.0) + Clock(Beaten(c, beats[0]), beats[1..])
  }

  lemma {:induction false} BeatKeepsPace(c: Controller, beats: seq<Beat>, longest: nat)
    requires beats != [] && Lives(c, beats, longest) && Paced(c, longest) && longest >= 1 && c.credit < longest as real
    ensures Paced(Beaten(c, beats[0]), longest)
  {
    match beats[0] {
      case More(text, now, weight) => PushKeepsPace(c, text, now, weight, longest);
      case Tick(now, weight, contentPieces, reasoningPieces) =>
        FrameKeepsPace(c, now, weight, contentPieces, reasoningPieces, longest);
    }
  }

  /** Credit and output together are what was earned, at no less than the minimum rate, and the pace is kept. */
  lemma {:induction false} BeatsKeepPace(c: Controller, beats: seq<Beat>, longest: nat)
    requires Lives(c, beats, longest) && Paced(c, longest) && longest >= 1
    requires c.credit < longest as real || beats == []
    ensures Paced(AfterBeats(c, beats), longest)
    ensures AfterBeats(c, beats).credit + Output(c, beats) as real == c.credit + Earned(c, beats)
    ensures Earned(c, beats) >= 0.032 * Clock(c, beats)
    decreases |beats|
  {
    if beats != [] {
      BeatKeepsPace(c, beats, longest);
      BeatsKeepPace(Beaten(c, beats[0]), beats[1..], longest);
      if beats[0].Tick? {
        AccrualAtLeastMinimum(c, beats[0].now, beats[0].weight);
      }
    }
  }

  /**
   The output of a new controller exceeds the credit earned by at most the longest piece minus one,
   and while text is left it never falls a piece behind it; the credit grows by at
   least 32 characters a second of accounted time.
   */
  lemma {:induction false} OutputFollowsCredit(start: real, beats: seq<Beat>, longest: nat)
    requires Lives(NewController(start), beats, longest) && longest >= 1
    ensures var c := NewController(start);
            && Output(c, beats) as real <= Earned(c, beats) + longest as real - 1.0
            && (AfterBeats(c, beats).Buffered() > 0 ==> Output(c, beats) as real > Earned(c, beats) - longest as real)
            && Earned(c, beats) >= 0.032 * Clock(c, beats)
  {
    BeatsKeepPace(NewController(start), beats, longest);
  }
}
