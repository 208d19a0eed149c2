/** The smoother as the object that updates its controllers, frames and chunks in place. */
module SmootherObject {
  import opened Prelude
  import opened SmootherMessage
  import opened SmootherRuns
  import opened StreamSmoother

  class LiveSmoother {
    var controllers: map<Key, Controller>
    var frames: map<nat, Key>
    var nextFrame: nat
    var chunks: map<Key, seq<Delta>>

    function View(): Smoother
      reads this
    {
      Smoother(controllers, frames, nextFrame, chunks)
    }

    ghost predicate Valid()
      reads this
    {
      View().OneFrameEach()
    }

    constructor ()
      ensures Valid() && View() == Smoother(map[], map[], 0, map[])
    {
      controllers, frames, nextFrame, chunks := map[], map[], 0, map[];
    }

    method AppendLoadingChunk(k: Key, d: Delta)
      modifies this`chunks
      ensures View() == old(View()).Append(k, d)
    {
      chunks := chunks[k := (if k in chunks then chunks[k] else []) + [d]];
    }

    method FlushMessage(k: Key, alive: bool)
      modifies this
      ensures View() == old(View()).Closed(k, alive)
    {
      if k !in controllers {
        return;
      }
      var controller := controllers[k];
      if controller.frame.Some? {
        frames := frames - {controller.frame.value};
      }
      if controller.Buffered() > 0 && alive {
        AppendLoadingChunk(k, Delta(controller.content, controller.reasoning));
      }
      controllers := controllers - {k};
    }

    method Schedule(k: Key)
      requires k in controllers
      modifies this`controllers, this`frames, this`nextFrame
      ensures View() == old(View()).Scheduled(k)
    {
      if controllers[k].frame.None? {
        controllers := controllers[k := controllers[k].(frame := Some(nextFrame))];
        frames := frames[nextFrame := k];
        nextFrame := nextFrame + 1;
      }
    }

    /** Buffers grow, and the arrival rate is sampled. */
    static method PushInto(controller: Controller, text: Delta, now: real, weight: real) returns (after: Controller)
      ensures after == Pushed(controller, text, now, weight)
    {
      var sampleChars := controller.sampleChars + |text.content| + |text.reasoning|;
      after := controller.(content := controller.content + text.content,
                           reasoning := controller.reasoning + text.reasoning,
                           sampleChars := sampleChars);
      var sampleMs := now - controller.sampleAt;
      if sampleMs >= RATE_SAMPLE_MS {
        var observedRate := sampleChars as real * 1000.0 / sampleMs;
        after := after.(arrivalRate := after.arrivalRate + (observedRate - after.arrivalRate) * weight,
                        sampleChars := 0, sampleAt := now);
      }
    }

    method PushChunk(k: Key, alive: bool, text: Delta, immediate: bool, now: real, weight: real)
      requires Valid()
      modifies this
      ensures Valid() && View() == old(View()).PushChunk(k, alive, text, immediate, now, weight)
    {
      PushKeepsFrames(View(), k, alive, text, immediate, now, weight);
      if !alive || k.message == "" {
        return;
      }
      if immediate {
        FlushMessage(k, true);
        AppendLoadingChunk(k, text);
        return;
      }
      if |text.content| == 0 && |text.reasoning| == 0 {
        NoText(text);
        AppendLoadingChunk(k, text);
        return;
      }
      var controller;
      if k !in controllers {
        controller := NewController(now);
        AppendLoadingChunk(k, EMPTY);
      } else {
        controller := controllers[k];
      }
      controller := PushInto(controller, text, now, weight);
      controllers := controllers[k := controller];
      Schedule(k);
    }

    /** One animation frame. */
    method Fire(f: nat, alive: bool, now: real, weight: real, contentPieces: seq<string>,
                reasoningPieces: seq<string>, ghost longest: nat)
      requires Valid() && f in frames
      requires Segmented(controllers[frames[f]], contentPieces, reasoningPieces, longest)
      modifies this
      ensures Valid() && View() == old(View()).Fire(f, alive, now, weight, contentPieces, reasoningPieces)
    {
      FireKeepsFrames(View(), f, alive, now, weight, contentPieces, reasoningPieces);
      var k := frames[f];
      frames := frames - {f};
      var controller := controllers[k].(frame := None);
      if !alive {
        controllers := controllers - {k};
        return;
      }
      ghost var c := controller;
      if now > controller.lastFrameAt {
        var delta;
        controller, delta := Advance(controller, now, weight, contentPieces, reasoningPieces, longest);
        if delta.Some? {
          AppendLoadingChunk(k, delta.value);
        }
      }
      assert controller == Framed(c, now, weight, contentPieces, reasoningPieces);
      if controller.Buffered() > 0 {
        controllers := controllers[k := controller];
        Schedule(k);
      } else {
        controllers := controllers - {k};
      }
    }

    /** Rate, credit and budget of a frame, and the text it takes from the two buffers. */
    static method Advance(controller: Controller, now: real, weight: real, contentPieces: seq<string>,
                          reasoningPieces: seq<string>, ghost longest: nat)
      returns (after: Controller, delta: Option<Delta>)
      requires now > controller.lastFrameAt && Segmented(controller, contentPieces, reasoningPieces, longest)
      ensures after == Framed(controller, now, weight, contentPieces, reasoningPieces)
      ensures delta == if Budget(controller, now, weight) > 0
                       then Some(FrameDelta(controller, now, weight, contentPieces, reasoningPieces)) else None
    {
      var rate := FrameRate(controller, weight);
      var credit := controller.credit + Accrual(controller, now, weight);
      var budget := credit.Floor;
      delta := None;
      after := controller.(lastFrameAt := now, rate := rate, credit := credit);
      if budget > 0 {
        var content, contentRest := TakeFromBuffer(controller.content, budget, contentPieces, longest);
        var remaining := budget - |content|;
        var reasoning, reasoningRest := TakeFromBuffer(controller.reasoning, remaining, reasoningPieces, longest);
        remaining := remaining - |reasoning|;
        credit := credit - (budget - remaining) as real;
        delta := Some(Delta(content, reasoning));
        after := after.(credit := credit, content := contentRest, reasoning := reasoningRest);
      } else {
        NothingTaken(contentPieces, controller.content, longest, budget);
        NothingTaken(reasoningPieces, controller.reasoning, longest, budget);
      }
    }

    /** One pass of the flush loop. */
    method FlushNext(ghost was: Smoother, ghost done: set<Key>, k: Key, alive: bool)
      requires k !in done && View() == was.AllClosed(done, alive)
      modifies this
      ensures View() == was.AllClosed(done + {k}, alive)
    {
      CloseOneMore(was, done, k, alive);
      FlushMessage(k, alive);
    }

    method FlushAll(keys: set<Key>, alive: bool)
      modifies this
      ensures View() == old(View()).AllClosed(keys, alive)
    {
      ghost var was := View();
      var left := keys;
      ghost var done: set<Key> := {};
      CloseNone(was, alive);
      while left != {}
        invariant View() == was.AllClosed(done, alive)
        invariant done !! left && done + left == keys
        decreases |left|
      {
        var k :| k in left;
        FlushNext(was, done, k, alive);
        left, done := left - {k}, done + {k};
      }
      assert done == keys;
    }

    /** Delivers everything buffered for a thread, message by message in some order. */
    method FlushThread(thread: string, alive: bool)
      requires Valid()
      modifies this
      ensures Valid() && View() == old(View()).FlushThread(thread, alive)
    {
      AllClosedKeepsFrames(View(), View().KeysOf(thread), alive);
      FlushAll(View().KeysOf(thread), alive);
    }

    /** Cancels the message's frame and forgets its buffers. */
    method DropMessage(k: Key)
      modifies this
      ensures View() == old(View()).Closed(k, false)
    {
      if k in controllers {
        if controllers[k].frame.Some? {
          frames := frames - {controllers[k].frame.value};
        }
        controllers := controllers - {k};
      }
    }

    /** One pass of the reset loop. */
    method DropNext(ghost was: Smoother, ghost done: set<Key>, k: Key)
      requires k !in done && View() == was.AllClosed(done, false)
      modifies this
      ensures View() == was.AllClosed(done + {k}, false)
    {
      CloseOneMore(was, done, k, false);
      DropMessage(k);
    }

    method DropAll(keys: set<Key>)
      modifies this
      ensures View() == old(View()).AllClosed(keys, false)
    {
      ghost var was := View();
      var left := keys;
      ghost var done: set<Key> := {};
      CloseNone(was, false);
      while left != {}
        invariant View() == was.AllClosed(done, false)
        invariant done !! left && done + left == keys
        decreases |left|
      {
        var k :| k in left;
        DropNext(was, done, k);
        left, done := left - {k}, done + {k};
      }
      assert done == keys;
    }

    /** Drops everything buffered, for one thread or for all. */
    method ResetThread(thread: string)
      requires Valid()
      modifies this
      ensures Valid() && View() == old(View()).ResetThread(thread)
    {
      var keys := if thread == "" then controllers.Keys else View().KeysOf(thread);
      AllClosedKeepsFrames(View(), keys, false);
      DropAll(keys);
    }
  }
}
