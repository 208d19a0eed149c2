/**
 The stream smoother: one controller per message with buffered text, each with
 exactly one scheduled animation frame, over all messages of all threads.
 */
module StreamSmoother {
  import opened Prelude
  import opened SmootherMessage
  import opened SmootherRuns

  datatype Key = Key(thread: string, message: string)

  datatype Smoother = Smoother(
    controllers: map<Key, Controller>,
    frames: map<nat, Key>,
    nextFrame: nat,
    chunks: map<Key, seq<Delta>>)
  {
    function ChunksAt(k: Key): seq<Delta> {
      if k in chunks then chunks[k] else []
    }

    /** A message on its own, without the identity of its frame. */
    function TrackAt(k: Key): Track {
      Track(if k in controllers then Some(controllers[k].(frame := None)) else None, ChunksAt(k))
    }

    function Append(k: Key, d: Delta): Smoother {
      this.(chunks := chunks[k := ChunksAt(k) + [d]])
    }

    /** The message loses its controller and frame; what was buffered is delivered or dropped. */
    function Closed(k: Key, deliver: bool): Smoother {
      if k !in controllers then this
      else
        var c := controllers[k];
        Smoother(controllers - {k}, if c.frame.Some? then frames - {c.frame.value} else frames, nextFrame,
                 if deliver && c.Buffered() > 0 then chunks[k := ChunksAt(k) + [TextLeft(c)]] else chunks)
    }

    /** Frames of the given messages' controllers. */
    function FramesOf(keys: set<Key>): set<nat> {
      set k | k in keys && k in controllers && controllers[k].frame.Some? :: controllers[k].frame.value
    }

    function LastChunks(keys: set<Key>, deliver: bool): map<Key, seq<Delta>> {
      map k | k in keys && k in controllers && deliver && controllers[k].Buffered() > 0 ::
        ChunksAt(k) + [TextLeft(controllers[k])]
    }

    /** All the given messages closed. */
    function AllClosed(keys: set<Key>, deliver: bool): Smoother {
      Smoother(controllers - keys, frames - FramesOf(keys), nextFrame, chunks + LastChunks(keys, deliver))
    }

    function KeysOf(thread: string): set<Key> {
      set k | k in controllers && k.thread == thread
    }

    function FlushThread(thread: string, alive: bool): Smoother {
      AllClosed(KeysOf(thread), alive)
    }

    /** No thread named means all of them. */
    function ResetThread(thread: string): Smoother {
      AllClosed(if thread == "" then controllers.Keys else KeysOf(thread), false)
    }

    function Scheduled(k: Key): Smoother
      requires k in controllers
    {
      if controllers[k].frame.Some? then this
      else
        var c := controllers[k].(frame := Some(nextFrame));
        Smoother(controllers[k := c], frames[nextFrame := k], nextFrame + 1, chunks)
    }

    function PushChunk(k: Key, alive: bool, text: Delta, immediate: bool, now: real, weight: real): Smoother {
      if !alive || k.message == "" then this
      else if immediate then Closed(k, true).Append(k, text)
      else if text == EMPTY then Append(k, text)
      else if k in controllers then
        this.(controllers := controllers[k := Pushed(controllers[k], text, now, weight)]).Scheduled(k)
      else
        var c := Pushed(NewController(now), text, now, weight);
        this.(controllers := controllers[k := c]).Append(k, EMPTY).Scheduled(k)
    }

    /** A frame callback: the frame is gone; on a live thread its message moves on, else the controller is dropped. */
    function Fire(f: nat, alive: bool, now: real, weight: real, contentPieces: seq<string>,
                  reasoningPieces: seq<string>): Smoother
      requires f in frames
    {
      var k := frames[f];
      var s := this.(frames := frames - {f});
      if k !in controllers then s
      else if !alive then s.(controllers := controllers - {k})
      else
        var c := controllers[k].(frame := None);
        var left := Framed(c, now, weight, contentPieces, reasoningPieces);
        var shown :=
          if Budget(c, now, weight) > 0 then s.Append(k, FrameDelta(c, now, weight, contentPieces, reasoningPieces))
          else s;
        if left.Buffered() > 0 then shown.(controllers := controllers[k := left]).Scheduled(k)
        else shown.(controllers := controllers - {k})
    }

    /** The message's controller has text and a scheduled frame of its own. */
    predicate HasFrame(k: Key) {
      && k in controllers && controllers[k].Buffered() > 0 && controllers[k].frame.Some?
      && controllers[k].frame.value in frames && frames[controllers[k].frame.value] == k
    }

    /** The frame belongs to a controller that knows it. */
    predicate HasController(f: nat) {
      && f in frames && f < nextFrame
      && frames[f] in controllers && controllers[frames[f]].frame == Some(f)
    }

    /** Every controller has text and exactly one scheduled frame, and there are no other frames. */
    ghost predicate OneFrameEach() {
      && (forall k :: k in controllers ==> HasFrame(k))
      && (forall f :: f in frames ==> HasController(f))
    }
  }

  // ------------------------------------------------------------ frames

  lemma ScheduledKeepsFrames(s: Smoother, k: Key, c: Controller)
    requires s.(controllers := s.controllers - {k}).OneFrameEach() && c.Buffered() > 0 && c.frame.None?
    ensures s.(controllers := s.controllers[k := c]).Scheduled(k).OneFrameEach()
  {
    var others := s.(controllers := s.controllers - {k});
    var after := s.(controllers := s.controllers[k := c]).Scheduled(k);
    forall j | j in after.controllers ensures after.HasFrame(j) {
      assert j != k ==> others.HasFrame(j);
    }
    forall f | f in after.frames ensures after.HasController(f) {
      assert f != s.nextFrame ==> others.HasController(f);
    }
  }

  lemma NoText(text: Delta)
    requires |text.content| + |text.reasoning| == 0
    ensures text == EMPTY
  {
    assert text.content == "" && text.reasoning == "";
  }

  lemma PushKeepsFrames(s: Smoother, k: Key, alive: bool, text: Delta, immediate: bool, now: real, weight: real)
    requires s.OneFrameEach()
    ensures s.PushChunk(k, alive, text, immediate, now, weight).OneFrameEach()
  {
    if immediate {
      ClosedKeepsFrames(s, k, true);
    } else if text != EMPTY {
      if |text.content| + |text.reasoning| == 0 {
        NoText(text);
      }
      if k !in s.controllers {
        assert s.controllers - {k} == s.controllers;
        ScheduledKeepsFrames(s, k, Pushed(NewController(now), text, now, weight));
      }
    }
  }

  lemma ClosedKeepsFrames(s: Smoother, k: Key, deliver: bool)
    requires s.OneFrameEach()
    ensures s.Closed(k, deliver).OneFrameEach()
  {
    forall f | f in s.Closed(k, deliver).frames ensures s.Closed(k, deliver).HasController(f) {
      assert s.HasController(f);
    }
  }

  lemma AllClosedKeepsFrames(s: Smoother, keys: set<Key>, deliver: bool)
    requires s.OneFrameEach()
    ensures s.AllClosed(keys, deliver).OneFrameEach()
  {
    forall f | f in s.frames && f !in s.FramesOf(keys) ensures s.AllClosed(keys, deliver).HasController(f) {
      assert s.HasController(f);
    }
  }

  /** Closing one message after the others. */
  lemma CloseOneMore(s: Smoother, keys: set<Key>, k: Key, deliver: bool)
    requires k !in keys
    ensures s.AllClosed(keys, deliver).Closed(k, deliver) == s.AllClosed(keys + {k}, deliver)
  {
    FramesOneMore(s, keys, k);
    ChunksOneMore(s, keys, k, deliver);
    assert s.controllers - keys - {k} == s.controllers - (keys + {k});
  }

  lemma CloseNone(s: Smoother, deliver: bool)
    ensures s.AllClosed({}, deliver) == s
  {
    assert s.controllers - {} == s.controllers && s.FramesOf({}) == {} && s.LastChunks({}, deliver) == map[];
  }

  lemma FramesOneMore(s: Smoother, keys: set<Key>, k: Key)
    ensures s.FramesOf(keys + {k}) ==
            s.FramesOf(keys) +
            if k in s.controllers && s.controllers[k].frame.Some? then {s.controllers[k].frame.value} else {}
    ensures k !in s.controllers ==> s.controllers - (keys + {k}) == s.controllers - keys
  {
  }

  lemma LastChunksOneMore(s: Smoother, keys: set<Key>, k: Key, deliver: bool)
    requires k !in keys
    ensures k !in s.LastChunks(keys, deliver)
    ensures s.LastChunks(keys + {k}, deliver) ==
            if k in s.controllers && deliver && s.controllers[k].Buffered() > 0
            then s.LastChunks(keys, deliver)[k := s.ChunksAt(k) + [TextLeft(s.controllers[k])]]
            else s.LastChunks(keys, deliver)
  {
  }

  lemma ChunksOneMore(s: Smoother, keys: set<Key>, k: Key, deliver: bool)
    requires k !in keys
    ensures s.AllClosed(keys, deliver).ChunksAt(k) == s.ChunksAt(k)
    ensures s.chunks + s.LastChunks(keys + {k}, deliver) ==
            if k in s.controllers && deliver && s.controllers[k].Buffered() > 0
            then (s.chunks + s.LastChunks(keys, deliver))[k := s.ChunksAt(k) + [TextLeft(s.controllers[k])]]
            else s.chunks + s.LastChunks(keys, deliver)
  {
    LastChunksOneMore(s, keys, k, deliver);
  }

  lemma FireKeepsFrames(s: Smoother, f: nat, alive: bool, now: real, weight: real, contentPieces: seq<string>,
                        reasoningPieces: seq<string>)
    requires s.OneFrameEach() && f in s.frames
    ensures s.Fire(f, alive, now, weight, contentPieces, reasoningPieces).OneFrameEach()
  {
    var k := s.frames[f];
    var s1 := s.(frames := s.frames - {f}, controllers := s.controllers - {k});
    assert s1.OneFrameEach();
    var left := Framed(s.controllers[k].(frame := None), now, weight, contentPieces, reasoningPieces);
    if left.Buffered() > 0 {
      ScheduledKeepsFrames(s.(frames := s.frames - {f}), k, left);
    }
  }

  // ------------------------------------------------------------ each message on its own

  lemma ScheduleIsInvisible(s: Smoother, k: Key, j: Key)
    requires k in s.controllers
    ensures s.Scheduled(k).TrackAt(j) == s.TrackAt(j)
  {
  }

  lemma PushedUnframed(c: Controller, text: Delta, now: real, weight: real)
    ensures Pushed(c, text, now, weight).(frame := None) == Pushed(c.(frame := None), text, now, weight)
  {
  }

  lemma ClosedIsFlush(s: Smoother, keys: set<Key>, deliver: bool, j: Key)
    ensures s.AllClosed(keys, deliver).TrackAt(j) ==
            if j !in keys then s.TrackAt(j)
            else if deliver then FlushTrack(s.TrackAt(j)) else Track(None, s.ChunksAt(j))
  {
  }

  lemma ImmediateIsPush(s: Smoother, k: Key, text: Delta, j: Key)
    ensures s.Closed(k, true).Append(k, text).TrackAt(j) ==
            if j == k then PushTrack(s.TrackAt(k), text, true, 0.0, 0.0) else s.TrackAt(j)
  {
  }

  lemma BufferedIsPush(s: Smoother, k: Key, text: Delta, now: real, weight: real, j: Key)
    requires k.message != "" && text != EMPTY
    ensures s.PushChunk(k, true, text, false, now, weight).TrackAt(j) ==
            if j == k then PushTrack(s.TrackAt(k), text, false, now, weight) else s.TrackAt(j)
  {
    if k in s.controllers {
      PushedUnframed(s.controllers[k], text, now, weight);
      ScheduleIsInvisible(s.(controllers := s.controllers[k := Pushed(s.controllers[k], text, now, weight)]), k, j);
    } else {
      var c := Pushed(NewController(now), text, now, weight);
      PushedUnframed(NewController(now), text, now, weight);
      ScheduleIsInvisible(s.(controllers := s.controllers[k := c]).Append(k, EMPTY), k, j);
    }
  }

  lemma PushIsPush(s: Smoother, k: Key, text: Delta, immediate: bool, now: real, weight: real, j: Key)
    requires k.message != ""
    ensures s.PushChunk(k, true, text, immediate, now, weight).TrackAt(j) ==
            if j == k then PushTrack(s.TrackAt(k), text, immediate, now, weight) else s.TrackAt(j)
  {
    if immediate {
      ImmediateIsPush(s, k, text, j);
    } else if text != EMPTY {
      BufferedIsPush(s, k, text, now, weight, j);
    }
  }

  lemma FireIsFrame(s: Smoother, f: nat, now: real, weight: real, contentPieces: seq<string>,
                    reasoningPieces: seq<string>, j: Key)
    requires s.OneFrameEach() && f in s.frames
    ensures s.Fire(f, true, now, weight, contentPieces, reasoningPieces).TrackAt(j) ==
            if j == s.frames[f] then FrameTrack(s.TrackAt(j), now, weight, contentPieces, reasoningPieces)
            else s.TrackAt(j)
  {
    var k := s.frames[f];
    var c := s.controllers[k].(frame := None);
    var left := Framed(c, now, weight, contentPieces, reasoningPieces);
    var s1 := s.(frames := s.frames - {f});
    var shown :=
      if Budget(c, now, weight) > 0 then s1.Append(k, FrameDelta(c, now, weight, contentPieces, reasoningPieces))
      else s1;
    if left.Buffered() > 0 {
      ScheduleIsInvisible(shown.(controllers := s.controllers[k := left]), k, j);
    }
  }

  // ------------------------------------------------------------ whole runs

  datatype Action =
    | PushAction(key: Key, alive: bool, text: Delta, immediate: bool, now: real, weight: real)
    | FireAction(frame: nat, alive: bool, now: real, weight: real, contentPieces: seq<string>,
                 reasoningPieces: seq<string>)
    | FlushAction(thread: string, alive: bool)
    | ResetAction(thread: string)

  /** Only scheduled frames fire, and the pieces given to a frame partition the buffers. */
  predicate Enabled(s: Smoother, a: Action, longest: nat) {
    a.FireAction? ==>
      && a.frame in s.frames
      && (s.frames[a.frame] in s.controllers ==>
          Segmented(s.controllers[s.frames[a.frame]], a.contentPieces, a.reasoningPieces, longest))
  }

  function Next(s: Smoother, a: Action): Smoother
    requires a.FireAction? ==> a.frame in s.frames
  {
    match a
    case PushAction(k, alive, text, immediate, now, weight) => s.PushChunk(k, alive, text, immediate, now, weight)
    case FireAction(f, alive, now, weight, contentPieces, reasoningPieces) =>
      s.Fire(f, alive, now, weight, contentPieces, reasoningPieces)
    case FlushAction(thread, alive) => s.FlushThread(thread, alive)
    case ResetAction(thread) => s.ResetThread(thread)
  }

  /** The action finds the message's thread alive, if it concerns it, and does not reset it. */
  predicate Spares(s: Smoother, a: Action, k: Key) {
    match a
    case PushAction(key, alive, _, _, _, _) => key == k ==> alive
    case FireAction(f, alive, _, _, _, _) => f in s.frames && s.frames[f] == k ==> alive
    case FlushAction(thread, alive) => thread == k.thread ==> alive
    case ResetAction(thread) => thread != "" && thread != k.thread
  }

  function TextFor(a: Action, k: Key): Delta {
    if a.PushAction? && a.key == k then a.text else EMPTY
  }

  predicate Possible(s: Smoother, actions: seq<Action>, longest: nat)
    decreases |actions|
  {
    actions != [] ==> Enabled(s, actions[0], longest) && Possible(Next(s, actions[0]), actions[1..], longest)
  }

  function After(s: Smoother, actions: seq<Action>, longest: nat): Smoother
    requires Possible(s, actions, longest)
    decreases |actions|
  {
    if actions == [] then s else After(Next(s, actions[0]), actions[1..], longest)
  }

  /** Every action of the run spares the message. */
  predicate AllSpare(s: Smoother, actions: seq<Action>, k: Key, longest: nat)
    requires Possible(s, actions, longest)
    decreases |actions|
  {
    actions != [] ==> Spares(s, actions[0], k) && AllSpare(Next(s, actions[0]), actions[1..], k, longest)
  }

  function TextsFor(actions: seq<Action>, k: Key): Delta {
    if actions == [] then EMPTY else Join(TextFor(actions[0], k), TextsFor(actions[1..], k))
  }

  lemma NextKeepsFrames(s: Smoother, a: Action)
    requires s.OneFrameEach() && (a.FireAction? ==> a.frame in s.frames)
    ensures Next(s, a).OneFrameEach()
  {
    match a {
      case PushAction(k, alive, text, immediate, now, weight) =>
        PushKeepsFrames(s, k, alive, text, immediate, now, weight);
      case FireAction(f, alive, now, weight, contentPieces, reasoningPieces) =>
        FireKeepsFrames(s, f, alive, now, weight, contentPieces, reasoningPieces);
      case FlushAction(thread, alive) => AllClosedKeepsFrames(s, s.KeysOf(thread), alive);
      case ResetAction(thread) =>
        AllClosedKeepsFrames(s, if thread == "" then s.controllers.Keys else s.KeysOf(thread), false);
    }
  }

  lemma ClosedConserves(s: Smoother, keys: set<Key>, deliver: bool, k: Key)
    requires k in keys ==> deliver || k !in s.controllers
    ensures Whole(s.AllClosed(keys, deliver).TrackAt(k)) == Whole(s.TrackAt(k))
  {
    ClosedIsFlush(s, keys, deliver, k);
    FlushConserves(s.TrackAt(k));
  }

  lemma PushActionConserves(s: Smoother, key: Key, text: Delta, immediate: bool, now: real, weight: real, k: Key)
    requires key.message != ""
    ensures Whole(s.PushChunk(key, true, text, immediate, now, weight).TrackAt(k)) ==
            Join(Whole(s.TrackAt(k)), if key == k then text else EMPTY)
  {
    PushIsPush(s, key, text, immediate, now, weight, k);
    PushConserves(s.TrackAt(key), text, immediate, now, weight);
    JoinAssociates(Whole(s.TrackAt(k)), EMPTY, EMPTY);
  }

  lemma FireActionConserves(s: Smoother, a: Action, k: Key, longest: nat)
    requires s.OneFrameEach() && a.FireAction? && Enabled(s, a, longest) && Spares(s, a, k)
    ensures Whole(Next(s, a).TrackAt(k)) == Whole(s.TrackAt(k))
  {
    if a.alive {
      FireIsFrame(s, a.frame, a.now, a.weight, a.contentPieces, a.reasoningPieces, k);
      FrameConserves(s.TrackAt(s.frames[a.frame]), a.now, a.weight, a.contentPieces, a.reasoningPieces, longest);
    }
  }

  lemma NextConserves(s: Smoother, a: Action, k: Key, longest: nat)
    requires s.OneFrameEach() && k.message != "" && Enabled(s, a, longest) && Spares(s, a, k)
    ensures Whole(Next(s, a).TrackAt(k)) == Join(Whole(s.TrackAt(k)), TextFor(a, k))
  {
    JoinAssociates(Whole(s.TrackAt(k)), EMPTY, EMPTY);
    match a {
      case PushAction(key, alive, text, immediate, now, weight) =>
        if alive && key.message != "" {
          PushActionConserves(s, key, text, immediate, now, weight, k);
        }
      case FireAction(_, _, _, _, _, _) => FireActionConserves(s, a, k, longest);
      case FlushAction(thread, alive) => ClosedConserves(s, s.KeysOf(thread), alive, k);
      case ResetAction(thread) => ClosedConserves(s, s.KeysOf(thread), false, k);
    }
  }

  /**
   Over any run, with any number of messages and threads: a message that is spared
   by resets and dead threads has lost, doubled and reordered nothing, and every
   message with buffered text still has exactly one frame to come.
   */
  lemma {:induction false} RunKeepsText(s: Smoother, actions: seq<Action>, k: Key, longest: nat)
    requires s.OneFrameEach() && k.message != "" && Possible(s, actions, longest) && AllSpare(s, actions, k, longest)
    ensures var end := After(s, actions, longest);
            end.OneFrameEach() && Whole(end.TrackAt(k)) == Join(Whole(s.TrackAt(k)), TextsFor(actions, k))
    decreases |actions|
  {
    if actions == [] {
      JoinAssociates(Whole(s.TrackAt(k)), EMPTY, EMPTY);
    } else {
      NextKeepsFrames(s, actions[0]);
      NextConserves(s, actions[0], k, longest);
      RunKeepsText(Next(s, actions[0]), actions[1..], k, longest);
      JoinAssociates(Whole(s.TrackAt(k)), TextFor(actions[0], k), TextsFor(actions[1..], k));
    }
  }

  /** So flushing a live thread after any such run shows, for each of its messages, all that was pushed for it. */
  lemma {:induction false} FlushedThreadIsComplete(s: Smoother, actions: seq<Action>, k: Key, longest: nat)
    requires s.OneFrameEach() && k.message != "" && Possible(s, actions, longest) && AllSpare(s, actions, k, longest)
    ensures var end := After(s, actions, longest).FlushThread(k.thread, true);
            k !in end.controllers && TextOf(end.ChunksAt(k)) == Join(Whole(s.TrackAt(k)), TextsFor(actions, k))
  {
    var before := After(s, actions, longest);
    RunKeepsText(s, actions, k, longest);
    ClosedConserves(before, before.KeysOf(k.thread), true, k);
    JoinAssociates(TextOf(before.FlushThread(k.thread, true).ChunksAt(k)), EMPTY, EMPTY);
  }

  // ------------------------------------------------------------ pace over whole runs

  /** Every controller's rate is unset or at least the minimum, and its credit is within a piece of zero. */
  ghost predicate AllPaced(s: Smoother, longest: nat) {
    forall k :: k in s.controllers ==> Paced(s.controllers[k], longest)
  }

  predicate ProperWeight(a: Action) {
    a.PushAction? || a.FireAction? ==> 0.0 < a.weight < 1.0
  }

  /** The identity of its frame does not matter to a controller's pace. */
  lemma PaceIgnoresFrame(c: Controller, frame: Option<nat>, longest: nat)
    ensures Paced(c.(frame := frame), longest) <==> Paced(c, longest)
  {
  }

  lemma ScheduledKeepsPace(s: Smoother, k: Key, longest: nat)
    requires k in s.controllers && AllPaced(s, longest)
    ensures AllPaced(s.Scheduled(k), longest)
  {
    PaceIgnoresFrame(s.controllers[k], Some(s.nextFrame), longest);
  }

  lemma PushKeepsAllPaced(s: Smoother, k: Key, alive: bool, text: Delta, immediate: bool, now: real, weight: real,
                          longest: nat)
    requires s.OneFrameEach() && AllPaced(s, longest) && longest >= 1 && 0.0 < weight < 1.0
    ensures AllPaced(s.PushChunk(k, alive, text, immediate, now, weight), longest)
  {
    if alive && k.message != "" && !immediate && text != EMPTY {
      var c := if k in s.controllers then s.controllers[k] else NewController(now);
      assert c.credit < longest as real by {
        assert k in s.controllers ==> s.HasFrame(k);
      }
      PushKeepsPace(c, text, now, weight, longest);
      var stored := s.(controllers := s.controllers[k := Pushed(c, text, now, weight)]);
      ScheduledKeepsPace(if k in s.controllers then stored else stored.Append(k, EMPTY), k, longest);
    }
  }

  lemma FireKeepsAllPaced(s: Smoother, f: nat, alive: bool, now: real, weight: real, contentPieces: seq<string>,
                          reasoningPieces: seq<string>, longest: nat)
    requires s.OneFrameEach() && AllPaced(s, longest) && longest >= 1 && 0.0 < weight < 1.0 && f in s.frames
    requires Segmented(s.controllers[s.frames[f]], contentPieces, reasoningPieces, longest)
    ensures AllPaced(s.Fire(f, alive, now, weight, contentPieces, reasoningPieces), longest)
  {
    var k := s.frames[f];
    var c := s.controllers[k].(frame := None);
    var left := Framed(c, now, weight, contentPieces, reasoningPieces);
    PaceIgnoresFrame(s.controllers[k], None, longest);
    FrameKeepsPace(c, now, weight, contentPieces, reasoningPieces, longest);
    if alive && left.Buffered() > 0 {
      var s1 := s.(frames := s.frames - {f});
      var shown :=
        if Budget(c, now, weight) > 0 then s1.Append(k, FrameDelta(c, now, weight, contentPieces, reasoningPieces))
        else s1;
      ScheduledKeepsPace(shown.(controllers := s.controllers[k := left]), k, longest);
    }
  }

  lemma NextKeepsAllPaced(s: Smoother, a: Action, longest: nat)
    requires s.OneFrameEach() && AllPaced(s, longest) && longest >= 1 && Enabled(s, a, longest) && ProperWeight(a)
    ensures AllPaced(Next(s, a), longest)
  {
    match a {
      case PushAction(k, alive, text, immediate, now, weight) =>
        PushKeepsAllPaced(s, k, alive, text, immediate, now, weight, longest);
      case FireAction(f, alive, now, weight, contentPieces, reasoningPieces) =>
        FireKeepsAllPaced(s, f, alive, now, weight, contentPieces, reasoningPieces, longest);
      case _ =>
    }
  }

  /**
   Along any run with proper weights, with any messages, threads, resets and dead
   threads, every controller stays paced.
   */
  lemma {:induction false} RunKeepsPace(s: Smoother, actions: seq<Action>, longest: nat)
    requires s.OneFrameEach() && AllPaced(s, longest) && longest >= 1 && Possible(s, actions, longest)
    requires forall i :: 0 <= i < |actions| ==> ProperWeight(actions[i])
    ensures AllPaced(After(s, actions, longest), longest)
    decreases |actions|
  {
    if actions != [] {
      NextKeepsFrames(s, actions[0]);
      NextKeepsAllPaced(s, actions[0], longest);
      RunKeepsPace(Next(s, actions[0]), actions[1..], longest);
    }
  }

  // ------------------------------------------------------------ what is there at once

  /** Every message with a controller has been shown, if only as an empty chunk. */
  ghost predicate AllShown(s: Smoother) {
    forall k :: k in s.controllers ==> k in s.chunks
  }

  lemma NextKeepsShown(s: Smoother, a: Action)
    requires AllShown(s) && (a.FireAction? ==> a.frame in s.frames)
    ensures AllShown(Next(s, a))
  {
  }

  lemma {:induction false} RunKeepsShown(s: Smoother, actions: seq<Action>, longest: nat)
    requires AllShown(s) && Possible(s, actions, longest)
    ensures AllShown(After(s, actions, longest))
    decreases |actions|
  {
    if actions != [] {
      NextKeepsShown(s, actions[0]);
      RunKeepsShown(Next(s, actions[0]), actions[1..], longest);
    }
  }

  /** What is buffered of the message. */
  function Waiting(s: Smoother, k: Key): Delta {
    if k in s.controllers then TextLeft(s.controllers[k]) else EMPTY
  }

  /**
   A chunk with tool calls, or with motion reduced, is shown in full and at once,
   behind all that was buffered of its message; no other message changes.
   */
  lemma ImmediateIsSeen(s: Smoother, k: Key, text: Delta, now: real, weight: real)
    requires k.message != ""
    ensures var after := s.PushChunk(k, true, text, true, now, weight);
            && k !in after.controllers
            && (after.ChunksAt(k) == s.ChunksAt(k) + [text] ||
                after.ChunksAt(k) == s.ChunksAt(k) + [Waiting(s, k), text])
            && (Waiting(s, k) != EMPTY ==> after.ChunksAt(k) == s.ChunksAt(k) + [Waiting(s, k), text])
            && forall j :: j != k ==> after.TrackAt(j) == s.TrackAt(j)
  {
    assert s.ChunksAt(k) + [Waiting(s, k)] + [text] == s.ChunksAt(k) + [Waiting(s, k), text];
    if Waiting(s, k) != EMPTY && s.controllers[k].Buffered() == 0 {
      NoText(Waiting(s, k));
    }
  }

  /**
   Other text goes behind the buffer, and makes its message appear at once, if only as
   an empty chunk; no other message changes.
   */
  lemma TextIsSeen(s: Smoother, k: Key, text: Delta, now: real, weight: real)
    requires AllShown(s) && k.message != ""
    ensures var after := s.PushChunk(k, true, text, false, now, weight);
            && k in after.chunks && Waiting(after, k) == Join(Waiting(s, k), text)
            && TextOf(after.ChunksAt(k)) == TextOf(s.ChunksAt(k))
            && forall j :: j != k ==> after.TrackAt(j) == s.TrackAt(j)
  {
    TextOfSnoc(s.ChunksAt(k), EMPTY);
    JoinAssociates(TextOf(s.ChunksAt(k)), EMPTY, EMPTY);
    if text != EMPTY {
      BufferedIsSeen(s, k, text, now, weight);
    } else {
      JoinAssociates(Waiting(s, k), EMPTY, EMPTY);
    }
  }

  lemma BufferedIsSeen(s: Smoother, k: Key, text: Delta, now: real, weight: real)
    requires AllShown(s) && k.message != "" && text != EMPTY
    ensures var after := s.PushChunk(k, true, text, false, now, weight);
            && k in after.chunks && Waiting(after, k) == Join(Waiting(s, k), text)
            && after.ChunksAt(k) == (if k in s.controllers then s.ChunksAt(k) else s.ChunksAt(k) + [EMPTY])
            && forall j :: j != k ==> after.TrackAt(j) == s.TrackAt(j)
  {
    JoinAssociates(text, EMPTY, EMPTY);
  }

  /** A reset drops the buffers of its thread, or of all, shows none of them, and leaves the rest. */
  lemma ResetForgets(s: Smoother, thread: string, k: Key)
    ensures var after := s.ResetThread(thread);
            && after.chunks == s.chunks
            && (k in after.controllers <==> k in s.controllers && thread != "" && k.thread != thread)
            && (k in after.controllers ==> after.controllers[k] == s.controllers[k])
  {
  }

  /** A chunk or a frame for a thread that is gone shows nothing; the frame also drops the buffer. */
  lemma DeadThreadShowsNothing(s: Smoother, a: Action)
    requires (a.PushAction? || a.FireAction?) && !a.alive && (a.FireAction? ==> a.frame in s.frames)
    ensures Next(s, a).chunks == s.chunks
    ensures if a.PushAction? then Next(s, a) == s
            else s.frames[a.frame] !in Next(s, a).controllers && a.frame !in Next(s, a).frames
  {
  }
}
