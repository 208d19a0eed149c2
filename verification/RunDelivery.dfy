/**
 One run's event log delivered over any number of disconnects, reconnects and
 replays, with several of the run's streams open at the same time.
 */
module RunDelivery {
  import opened Prelude
  import opened RunSeq
  import opened RunStream

  /** Ids of a log grow. */
  predicate ValidLog(log: seq<string>) {
    && (forall i :: 0 <= i < |log| ==> IsRunSeq(log[i]))
    && (forall i, j :: 0 <= i < j < |log| ==> CompareRunSeq(log[i], log[j]) < 0)
  }

  /** The cursor stands behind the first k entries of the log and before the others. */
  predicate AtCursor(log: seq<string>, cursor: string, k: nat) {
    && k <= |log|
    && (forall i :: 0 <= i < k ==> CompareRunSeq(log[i], cursor) <= 0)
    && (forall i :: k <= i < |log| ==> CompareRunSeq(log[i], cursor) > 0)
  }

  /** A server asked for what follows a cursor may replay, but may not skip. */
  predicate SkipsNothing(log: seq<string>, cursor: string, start: nat) {
    start <= |log| && forall i :: 0 <= i < start ==> CompareRunSeq(log[i], cursor) <= 0
  }

  /** The thread, the next position of each stream opened for the run, and the ids that passed the cursor check. */
  datatype World = World(thread: Thread, streams: seq<nat>, delivered: seq<string>)

  datatype Action =
    | Reconnect(token: nat, start: nat)
    | Receive(stream: nat)
    | Stray(from: RunId, hasData: bool, eventId: Option<string>)
    | Finalize(runId: Option<RunId>, touched: set<ThreadId>, interruptedStatus: bool, expected: Option<RunId>)
    | StartOther(other: RunId, afterSeq: Option<string>, steerable: Option<bool>, token: nat)
    | Preserve(kept: RunId, lastSeq: Option<string>)
    | Restart(afterSeq: Option<string>, steerable: Option<bool>, token: nat, start: nat)
    | End(own: nat)

  /** Two cursors have the same entries of the log behind them. */
  predicate SamePlace(log: seq<string>, a: string, b: string) {
    forall i :: 0 <= i < |log| ==> (CompareRunSeq(log[i], a) <= 0 <==> CompareRunSeq(log[i], b) <= 0)
  }

  /**
   What can happen next, for a log and its run. The active run may be preserved or
   started again with any cursor at the place of the current one; the end of this
   module says what a cursor at another place does.
   */
  predicate Allowed(log: seq<string>, run: RunId, w: World, a: Action) {
    match a
    case Reconnect(_, start) => w.thread.Reconnects(run) && SkipsNothing(log, w.thread.runLastSeq, start)
    case Receive(i) => i < |w.streams| && w.streams[i] < |log|
    case Stray(from, _, eventId) => from == run ==> eventId.Some? ==> !IsRunSeq(Trim(eventId.value))
    case Finalize(runId, _, _, expected) => runId.Some? ==> expected == runId
    case StartOther(other, _, _, _) => other != run
    case Preserve(runId, lastSeq) =>
      runId == run ==>
        w.thread.activeRunId == Some(run) &&
          SamePlace(log, w.thread.Preserved(run, lastSeq).runLastSeq, w.thread.runLastSeq)
    case Restart(afterSeq, _, _, start) =>
      && w.thread.activeRunId == Some(run) && SamePlace(log, NormalizeRunSeq(afterSeq), w.thread.runLastSeq)
      && SkipsNothing(log, NormalizeRunSeq(afterSeq), start)
    case End(_) => true
  }

  function Step(log: seq<string>, run: RunId, w: World, a: Action): World
    requires Allowed(log, run, w, a)
  {
    match a
    case Reconnect(token, start) =>
      World(w.thread.Started(run, Some(w.thread.runLastSeq), None, token), w.streams + [start], w.delivered)
    case Receive(i) =>
      var id := log[w.streams[i]];
      World(w.thread.Event(run, true, Some(id)), w.streams[i := w.streams[i] + 1],
            if w.thread.Passes(run, true, Some(id)) then w.delivered + [id] else w.delivered)
    case Stray(from, hasData, eventId) => w.(thread := w.thread.Event(from, hasData, eventId))
    case Finalize(runId, touched, status, expected) =>
      w.(thread := w.thread.Finalized(runId, touched, status, expected))
    case StartOther(other, afterSeq, steerable, token) =>
      w.(thread := w.thread.Started(other, afterSeq, steerable, token))
    case Preserve(runId, lastSeq) => w.(thread := w.thread.Preserved(runId, lastSeq))
    case Restart(afterSeq, steerable, token, start) =>
      World(w.thread.Started(run, afterSeq, steerable, token), w.streams + [start], w.delivered)
    case End(own) => w.(thread := w.thread.Ended(own))
  }

  predicate Possible(log: seq<string>, run: RunId, w: World, actions: seq<Action>)
    decreases |actions|
  {
    actions != [] ==>
      Allowed(log, run, w, actions[0]) && Possible(log, run, Step(log, run, w, actions[0]), actions[1..])
  }

  function After(log: seq<string>, run: RunId, w: World, actions: seq<Action>): World
    requires Possible(log, run, w, actions)
    decreases |actions|
  {
    if actions == [] then w else After(log, run, Step(log, run, w, actions[0]), actions[1..])
  }

  // ------------------------------------------------------------ the invariant

  /** Delivered is the part of the log from k0 on, each entry once and in order. */
  predicate Progress(log: seq<string>, k0: nat, delivered: seq<string>) {
    k0 + |delivered| <= |log| && delivered == log[k0..k0 + |delivered|]
  }

  /** The cursor is behind exactly the first k entries, and no stream is ahead of them. */
  predicate InStep(log: seq<string>, cursor: string, streams: seq<nat>, k: nat) {
    && AtCursor(log, cursor, k)
    && IsRunSeq(cursor)
    && forall i :: 0 <= i < |streams| ==> streams[i] <= k
  }

  predicate Inv(log: seq<string>, run: RunId, k0: nat, w: World) {
    && Progress(log, k0, w.delivered)
    && (w.thread.activeRunId == Some(run) ==> InStep(log, w.thread.runLastSeq, w.streams, k0 + |w.delivered|))
  }

  lemma ProgressNext(log: seq<string>, k0: nat, delivered: seq<string>, k: nat)
    requires Progress(log, k0, delivered) && k == k0 + |delivered| < |log|
    ensures Progress(log, k0, delivered + [log[k]])
  {
  }

  lemma InStepNext(log: seq<string>, cursor: string, streams: seq<nat>, k: nat, i: nat)
    requires ValidLog(log) && InStep(log, cursor, streams, k) && i < |streams| && streams[i] == k < |log|
    ensures InStep(log, log[k], streams[i := k + 1], k + 1)
  {
    NextCursor(log, k);
  }

  lemma NextCursor(log: seq<string>, k: nat)
    requires ValidLog(log) && k < |log|
    ensures AtCursor(log, log[k], k + 1)
  {
    forall i | 0 <= i < |log| ensures i <= k <==> CompareRunSeq(log[i], log[k]) <= 0 {
      CompareIsOrder(log[i], log[k], log[k]);
      CompareIsOrder(log[k], log[i], log[k]);
    }
  }

  lemma OwnId(log: seq<string>, i: nat)
    requires ValidLog(log) && i < |log|
    ensures log[i] != "" && NormalizeRunSeq(Some(log[i])) == log[i]
  {
    TrimKeepsRunSeq(log[i]);
  }

  /**
   With the cursor behind k entries, exactly the entries from the k-th on pass, and the
   cursor moves to what passes.
   */
  lemma EntryPasses(log: seq<string>, run: RunId, t: Thread, k: nat, i: nat)
    requires ValidLog(log) && i < |log| && t.activeRunId == Some(run) && AtCursor(log, t.runLastSeq, k)
    ensures t.Passes(run, true, Some(log[i])) <==> k <= i
    ensures var after := t.Event(run, true, Some(log[i]));
            after.activeRunId == t.activeRunId && after.runLastSeq == if k <= i then log[i] else t.runLastSeq
  {
    OwnId(log, i);
  }

  /** A server skips nothing exactly when it starts at or before the first entry behind the cursor. */
  lemma SkipsNothingMeans(log: seq<string>, cursor: string, k: nat, start: nat)
    requires AtCursor(log, cursor, k) && start <= |log|
    ensures SkipsNothing(log, cursor, start) <==> start <= k
  {
    if k < start {
      assert CompareRunSeq(log[k], cursor) > 0;
    }
  }

  lemma ReceiveKeeps(log: seq<string>, run: RunId, k0: nat, w: World, i: nat)
    requires ValidLog(log) && Inv(log, run, k0, w) && Allowed(log, run, w, Receive(i))
    ensures Inv(log, run, k0, Step(log, run, w, Receive(i)))
  {
    var k := k0 + |w.delivered|;
    var pos := w.streams[i];
    if w.thread.activeRunId == Some(run) {
      EntryPasses(log, run, w.thread, k, pos);
      if pos == k {
        InStepNext(log, w.thread.runLastSeq, w.streams, k, i);
        ProgressNext(log, k0, w.delivered, k);
      }
    }
  }

  lemma ReconnectKeeps(log: seq<string>, run: RunId, k0: nat, w: World, token: nat, start: nat)
    requires Inv(log, run, k0, w) && Allowed(log, run, w, Reconnect(token, start))
    ensures Inv(log, run, k0, Step(log, run, w, Reconnect(token, start)))
  {
    TrimKeepsRunSeq(w.thread.runLastSeq);
    SkipsNothingMeans(log, w.thread.runLastSeq, k0 + |w.delivered|, start);
  }

  lemma StrayKeeps(log: seq<string>, run: RunId, k0: nat, w: World, from: RunId, hasData: bool, eventId: Option<string>)
    requires Inv(log, run, k0, w) && Allowed(log, run, w, Stray(from, hasData, eventId))
    ensures Inv(log, run, k0, Step(log, run, w, Stray(from, hasData, eventId)))
  {
    if from == run && eventId.Some? {
      MalformedNeverPasses(eventId.value, w.thread.runLastSeq);
    }
  }

  lemma SamePlaceMeans(log: seq<string>, a: string, b: string, k: nat)
    requires AtCursor(log, b, k)
    ensures SamePlace(log, a, b) <==> AtCursor(log, a, k)
  {
  }

  lemma PreservedCursor(t: Thread, run: RunId, lastSeq: Option<string>)
    requires run != ""
    ensures t.Preserved(run, lastSeq).activeRunId == Some(run) && IsRunSeq(t.Preserved(run, lastSeq).runLastSeq)
  {
    NormalizeIsStable(if lastSeq.Some? && lastSeq.value != "" then lastSeq
                      else if t.runLastSeq != "" then Some(t.runLastSeq) else Some(ORIGIN));
  }

  /**
   Preserving the active run keeps delivery on course exactly when the cursor it sets has
   just the delivered part behind it.
   */
  lemma PreserveKeepsExactly(log: seq<string>, run: RunId, k0: nat, w: World, lastSeq: Option<string>)
    requires run != "" && Inv(log, run, k0, w) && w.thread.activeRunId == Some(run)
    ensures var preserved := w.thread.Preserved(run, lastSeq);
            Inv(log, run, k0, w.(thread := preserved)) <==> AtCursor(log, preserved.runLastSeq, k0 + |w.delivered|)
  {
    PreservedCursor(w.thread, run, lastSeq);
  }

  lemma PreserveKeeps(log: seq<string>, run: RunId, k0: nat, w: World, runId: RunId, lastSeq: Option<string>)
    requires run != "" && Inv(log, run, k0, w) && Allowed(log, run, w, Preserve(runId, lastSeq))
    ensures Inv(log, run, k0, Step(log, run, w, Preserve(runId, lastSeq)))
  {
    if runId == run {
      SamePlaceMeans(log, w.thread.Preserved(run, lastSeq).runLastSeq, w.thread.runLastSeq, k0 + |w.delivered|);
      PreserveKeepsExactly(log, run, k0, w, lastSeq);
    }
  }

  /** The same for starting the active run again, against a server that skips nothing behind the cursor asked for. */
  lemma RestartKeepsExactly(log: seq<string>, run: RunId, k0: nat, w: World, afterSeq: Option<string>,
                            steerable: Option<bool>, token: nat, start: nat)
    requires run != "" && Inv(log, run, k0, w) && w.thread.activeRunId == Some(run)
    requires SkipsNothing(log, NormalizeRunSeq(afterSeq), start)
    ensures var restarted := World(w.thread.Started(run, afterSeq, steerable, token), w.streams + [start], w.delivered);
            Inv(log, run, k0, restarted) <==> AtCursor(log, NormalizeRunSeq(afterSeq), k0 + |w.delivered|)
  {
    var cursor, k := NormalizeRunSeq(afterSeq), k0 + |w.delivered|;
    NormalizeIsStable(afterSeq);
    if AtCursor(log, cursor, k) {
      SkipsNothingMeans(log, cursor, k, start);
    }
  }

  lemma RestartKeeps(log: seq<string>, run: RunId, k0: nat, w: World, a: Action)
    requires run != "" && Inv(log, run, k0, w) && a.Restart? && Allowed(log, run, w, a)
    ensures Inv(log, run, k0, Step(log, run, w, a))
  {
    SamePlaceMeans(log, NormalizeRunSeq(a.afterSeq), w.thread.runLastSeq, k0 + |w.delivered|);
    RestartKeepsExactly(log, run, k0, w, a.afterSeq, a.steerable, a.token, a.start);
  }

  lemma StepKeeps(log: seq<string>, run: RunId, k0: nat, w: World, a: Action)
    requires ValidLog(log) && run != "" && Inv(log, run, k0, w) && Allowed(log, run, w, a)
    ensures Inv(log, run, k0, Step(log, run, w, a))
  {
    match a {
      case Reconnect(token, start) => ReconnectKeeps(log, run, k0, w, token, start);
      case Receive(i) => ReceiveKeeps(log, run, k0, w, i);
      case Stray(from, hasData, eventId) => StrayKeeps(log, run, k0, w, from, hasData, eventId);
      case Preserve(runId, lastSeq) => PreserveKeeps(log, run, k0, w, runId, lastSeq);
      case Restart(_, _, _, _) => RestartKeeps(log, run, k0, w, a);
      case _ =>
    }
  }

  lemma {:induction false} RunKeeps(log: seq<string>, run: RunId, k0: nat, w: World, actions: seq<Action>)
    requires ValidLog(log) && run != "" && Inv(log, run, k0, w) && Possible(log, run, w, actions)
    ensures Inv(log, run, k0, After(log, run, w, actions))
    decreases |actions|
  {
    if actions != [] {
      StepKeeps(log, run, k0, w, actions[0]);
      RunKeeps(log, run, k0, Step(log, run, w, actions[0]), actions[1..]);
    }
  }

  // ------------------------------------------------------------ the main results

  /** The world right after startRunStream, whatever the thread was before. */
  function Opened(run: RunId, t: Thread, afterSeq: Option<string>, steerable: Option<bool>, token: nat,
                  start: nat): World {
    World(t.Started(run, afterSeq, steerable, token), [start], [])
  }

  lemma StartOpens(log: seq<string>, run: RunId, k0: nat, t: Thread, afterSeq: Option<string>,
                   steerable: Option<bool>, token: nat, start: nat)
    requires run != "" && AtCursor(log, NormalizeRunSeq(afterSeq), k0) &&
             SkipsNothing(log, NormalizeRunSeq(afterSeq), start)
    ensures Inv(log, run, k0, Opened(run, t, afterSeq, steerable, token, start))
  {
    NormalizeIsStable(afterSeq);
    SkipsNothingMeans(log, NormalizeRunSeq(afterSeq), k0, start);
  }

  /**
   Whatever happens after a start, the ids that passed are the log from the
   starting point on, each exactly once and in order; and once any of the run's
   streams was read to the end while the run stayed active, nothing is missing.
   */
  lemma {:induction false} DeliveredOnceInOrder(log: seq<string>, run: RunId, k0: nat, t: Thread,
                                                afterSeq: Option<string>,
                                                steerable: Option<bool>, token: nat, start: nat, actions: seq<Action>)
    requires ValidLog(log) && run != ""
    requires AtCursor(log, NormalizeRunSeq(afterSeq), k0) && SkipsNothing(log, NormalizeRunSeq(afterSeq), start)
    requires Possible(log, run, Opened(run, t, afterSeq, steerable, token, start), actions)
    ensures var end := After(log, run, Opened(run, t, afterSeq, steerable, token, start), actions);
            && Progress(log, k0, end.delivered)
            && (end.thread.activeRunId == Some(run) && |log| in end.streams ==> end.delivered == log[k0..])
  {
    StartOpens(log, run, k0, t, afterSeq, steerable, token, start);
    RunKeeps(log, run, k0, Opened(run, t, afterSeq, steerable, token, start), actions);
  }

  lemma DifferentEntries(log: seq<string>, i: nat, j: nat)
    requires ValidLog(log) && i < j < |log|
    ensures log[i] != log[j]
  {
    CompareIsOrder(log[i], log[i], log[i]);
  }

  lemma GapIsNoProgress(log: seq<string>, k0: nat, delivered: seq<string>, k: nat, id: string)
    requires k == k0 + |delivered| < |log| && log[k] != id
    ensures !Progress(log, k0, delivered + [id])
  {
    assert log[k0..k + 1][|delivered|] == log[k];
  }

  /** The condition on the server is needed: after one reconnect that skips an entry, the next delivery leaves a gap. */
  lemma SkippingLeavesGap(log: seq<string>, run: RunId, k0: nat, w: World, token: nat, start: nat)
    requires ValidLog(log) && run != "" && Inv(log, run, k0, w) && w.thread.Reconnects(run)
    requires start < |log| && !SkipsNothing(log, w.thread.runLastSeq, start)
    ensures var restarted := w.thread.Started(run, Some(w.thread.runLastSeq), None, token);
            restarted.Passes(run, true, Some(log[start])) && !Progress(log, k0, w.delivered + [log[start]])
  {
    var k := k0 + |w.delivered|;
    var restarted := w.thread.Started(run, Some(w.thread.runLastSeq), None, token);
    SkipsNothingMeans(log, w.thread.runLastSeq, k, start);
    TrimKeepsRunSeq(w.thread.runLastSeq);
    EntryPasses(log, run, restarted, k, start);
    DifferentEntries(log, k, start);
    GapIsNoProgress(log, k0, w.delivered, k, log[start]);
  }

  // ------------------------------------------------------------ a cursor at another place

  lemma WrongEntryIsNoProgress(log: seq<string>, k0: nat, delivered: seq<string>, m: nat)
    requires ValidLog(log) && Progress(log, k0, delivered) && m < |log| && m != k0 + |delivered|
    ensures !Progress(log, k0, delivered + [log[m]])
    ensures k0 <= m < k0 + |delivered| ==> log[m] in delivered
  {
    var k := k0 + |delivered|;
    if k < |log| {
      DifferentEntries(log, if m < k then m else k, if m < k then k else m);
      GapIsNoProgress(log, k0, delivered, k, log[m]);
    }
    if k0 <= m < k {
      assert delivered[m - k0] == log[m];
    }
  }

  /**
   A thread of the active run whose cursor has m entries behind it, m not being the
   end of the delivered part: on the next reconnect the server may start anywhere up
   to m, and the entry that passes then is a gap, or one already delivered.
   */
  lemma WrongCursorPassesWrongEntry(log: seq<string>, run: RunId, k0: nat, w: World, t: Thread, token: nat, m: nat)
    requires ValidLog(log) && run != "" && Progress(log, k0, w.delivered)
    requires t.Reconnects(run) && IsRunSeq(t.runLastSeq) && AtCursor(log, t.runLastSeq, m)
    requires m < |log| && m != k0 + |w.delivered|
    ensures var restarted := t.Started(run, Some(t.runLastSeq), None, token);
            && SkipsNothing(log, t.runLastSeq, m) && restarted.Passes(run, true, Some(log[m]))
            && !Progress(log, k0, w.delivered + [log[m]])
            && (k0 <= m < k0 + |w.delivered| ==> log[m] in w.delivered)
  {
    var restarted := t.Started(run, Some(t.runLastSeq), None, token);
    TrimKeepsRunSeq(t.runLastSeq);
    EntryPasses(log, run, restarted, m, m);
    WrongEntryIsNoProgress(log, k0, w.delivered, m);
  }

  /**
   With the cursor behind the whole log, the reconnected stream may be at the end at
   once: what is missing stays missing.
   */
  lemma CursorAtEndLosesTheRest(log: seq<string>, run: RunId, k0: nat, w: World, t: Thread, token: nat)
    requires ValidLog(log) && run != "" && Progress(log, k0, w.delivered) && k0 + |w.delivered| != |log|
    requires t.Reconnects(run) && IsRunSeq(t.runLastSeq) && AtCursor(log, t.runLastSeq, |log|)
    ensures Allowed(log, run, w.(thread := t), Reconnect(token, |log|))
    ensures var after := Step(log, run, w.(thread := t), Reconnect(token, |log|));
            && after.thread.activeRunId == Some(run) && |log| in after.streams && after.delivered != log[k0..]
            && forall i :: 0 <= i < |log| ==> !after.thread.Passes(run, true, Some(log[i]))
  {
    var after := Step(log, run, w.(thread := t), Reconnect(token, |log|));
    TrimKeepsRunSeq(t.runLastSeq);
    assert after.streams[|w.streams|] == |log|;
    forall i | 0 <= i < |log| ensures !after.thread.Passes(run, true, Some(log[i])) {
      EntryPasses(log, run, after.thread, |log|, i);
    }
  }

  /**
   A cursor with m entries behind it, m not being the end of the delivered part, can
   break both halves of delivery on the next reconnect: an entry passes that is a gap
   or a repetition, or the cursor is behind the whole log and no missing entry passes.
   */
  lemma WrongCursorBreaksDelivery(log: seq<string>, run: RunId, k0: nat, w: World, t: Thread, token: nat, m: nat)
    requires ValidLog(log) && run != "" && Progress(log, k0, w.delivered)
    requires t.Reconnects(run) && IsRunSeq(t.runLastSeq) && AtCursor(log, t.runLastSeq, m) && m != k0 + |w.delivered|
    ensures Allowed(log, run, w.(thread := t), Reconnect(token, m))
    ensures var after := Step(log, run, w.(thread := t), Reconnect(token, m));
            if m < |log| then
              && after.thread.Passes(run, true, Some(log[m])) && !Progress(log, k0, w.delivered + [log[m]])
              && (k0 <= m < k0 + |w.delivered| ==> log[m] in w.delivered)
            else
              && after.thread.activeRunId == Some(run) && |log| in after.streams && after.delivered != log[k0..]
              && forall i :: 0 <= i < |log| ==> !after.thread.Passes(run, true, Some(log[i]))
  {
    if m < |log| {
      WrongCursorPassesWrongEntry(log, run, k0, w, t, token, m);
    } else {
      CursorAtEndLosesTheRest(log, run, k0, w, t, token);
    }
  }

  /**
   The resume logic can do this: it reads the stored snapshot, waits for the run's
   status, and then preserves the run with the cursor it had read. If the run was
   reconnected and moved on in the meantime, then after the next break of the stream
   the entry behind the old cursor passes a second time.
   */
  lemma StalePreserveReplays(log: seq<string>, run: RunId, k0: nat, w: World, j: nat, token: nat)
    requires ValidLog(log) && run != "" && Inv(log, run, k0, w) && w.thread.Reconnects(run)
    requires k0 <= j && j + 1 < k0 + |w.delivered|
    ensures var t := w.thread.Preserved(run, Some(log[j]));
            && t.Reconnects(run) && Allowed(log, run, w.(thread := t), Reconnect(token, j + 1))
            && t.Started(run, Some(t.runLastSeq), None, token).Passes(run, true, Some(log[j + 1]))
            && log[j + 1] in w.delivered
  {
    OwnId(log, j);
    NextCursor(log, j);
    PreservedCursor(w.thread, run, Some(log[j]));
    WrongCursorBreaksDelivery(log, run, k0, w, w.thread.Preserved(run, Some(log[j])), token, j + 1);
  }

  /** The same race on the other branch: the run is started again from a cursor computed before waiting. */
  lemma StaleRestartReplays(log: seq<string>, run: RunId, k0: nat, w: World, j: nat, steerable: Option<bool>,
                            token: nat)
    requires ValidLog(log) && run != "" && Inv(log, run, k0, w)
    requires k0 <= j && j + 1 < k0 + |w.delivered|
    ensures var t := w.thread.Started(run, Some(log[j]), steerable, token);
            && SkipsNothing(log, NormalizeRunSeq(Some(log[j])), j + 1)
            && t.Passes(run, true, Some(log[j + 1])) && log[j + 1] in w.delivered
  {
    OwnId(log, j);
    NextCursor(log, j);
    EntryPasses(log, run, w.thread.Started(run, Some(log[j]), steerable, token), j + 1, j + 1);
    WrongEntryIsNoProgress(log, k0, w.delivered, j + 1);
  }

  // ------------------------------------------------------------ superseded streams

  /** What a stream that is no longer the active one can still try: events, finalisation, reconnecting, ending. */
  datatype Late =
    | LateEvent(hasData: bool, eventId: Option<string>)
    | LateFinalize(touched: set<ThreadId>, interruptedStatus: bool)
    | LateReconnect(token: nat)
    | LateEnd

  function LateStep(t: Thread, run: RunId, own: nat, late: Late): Thread {
    match late
    case LateEvent(hasData, eventId) => t.Event(run, hasData, eventId)
    case LateFinalize(touched, status) => t.Finalized(Some(run), touched, status, Some(run))
    case LateReconnect(token) => if t.Reconnects(run) then t.Started(run, Some(t.runLastSeq), None, token) else t
    case LateEnd => t.Ended(own)
  }

  function LateRun(t: Thread, run: RunId, own: nat, lates: seq<Late>): Thread
    decreases |lates|
  {
    if lates == [] then t else LateRun(LateStep(t, run, own, lates[0]), run, own, lates[1..])
  }

  /** Once a newer run is active with its own connection, no sequence of late steps of an older one changes anything. */
  lemma {:induction false} LateStepsAreInert(t: Thread, run: RunId, own: nat, lates: seq<Late>)
    requires t.activeRunId.Some? && t.activeRunId.value != run && t.activeRunId.value != "" && t.controller != Some(own)
    ensures LateRun(t, run, own, lates) == t
    decreases |lates|
  {
    if lates != [] {
      assert LateStep(t, run, own, lates[0]) == t;
      LateStepsAreInert(t, run, own, lates[1..]);
    }
  }

  /**
   The answer to a status request that finds the run interrupted: its pending interrupt
   is preserved, else it is finalised.
   */
  function InterruptedAnswer(t: Thread, run: RunId, touched: set<ThreadId>): Thread {
    if t.HasPendingInterruptIn(touched, Some(run)) then t.Preserved(run, None)
    else t.Finalized(Some(run), touched, true, Some(run))
  }

  /**
   Of what a run's stream does later, everything still counts as it would have: events,
   finalisation, reconnecting.
   */
  ghost predicate StillCounts(t: Thread, after: Thread, run: RunId) {
    && (forall hasData, eventId :: after.Passes(run, hasData, eventId) <==> t.Passes(run, hasData, eventId))
    && (after.Reconnects(run) <==> t.Reconnects(run))
    && (after.activeRunId == Some(run) <==> t.activeRunId == Some(run))
  }

  lemma SameCursorCompares(incoming: string, cursor: string)
    ensures CompareRunSeq(incoming, NormalizeRunSeq(Some(cursor))) == CompareRunSeq(incoming, cursor)
  {
    NormalizeIsStable(Some(cursor));
  }

  lemma PreservingItselfCounts(t: Thread, run: RunId)
    requires run != "" && t.activeRunId == Some(run)
    ensures StillCounts(t, t.Preserved(run, None), run)
  {
    OriginIsRunSeq();
    var after := t.Preserved(run, None);
    forall hasData, eventId ensures after.Passes(run, hasData, eventId) <==> t.Passes(run, hasData, eventId) {
      SameCursorCompares(NormalizeRunSeq(eventId), if t.runLastSeq != "" then t.runLastSeq else ORIGIN);
      SameCursorCompares(NormalizeRunSeq(eventId), t.runLastSeq);
    }
  }

  /**
   The status answer checks for a pending interrupt, but not, after the waiting, that
   its run is still the active one. For an older run the newer active one goes on
   counting exactly when no interrupt is pending for the older; so under the code's
   own check, exactly when the run preserved is the active one.
   */
  lemma PreserveDisplacesNewerRun(t: Thread, run: RunId, newer: RunId, touched: set<ThreadId>)
    requires run != "" && t.activeRunId == Some(newer)
    ensures t.Preserved(run, None).activeRunId == t.activeRunId <==> run == newer
    ensures run != newer ==>
            (StillCounts(t, InterruptedAnswer(t, run, touched), newer) <==>
             !t.HasPendingInterruptIn(touched, Some(run)))
    ensures t.HasPendingInterruptIn(touched, Some(run)) ==>
            (StillCounts(t, InterruptedAnswer(t, run, touched), newer) <==> run == newer)
  {
    assert t.Passes(newer, true, None);
    if run == newer {
      PreservingItselfCounts(t, run);
    }
  }

  /**
   A newer run started while the older one's status was awaited is cut off when the
   answer finds an interrupt pending: the older run is active again, and no sequence
   of the newer run's own events, finalisations and reconnects, its ending apart,
   changes the thread any more.
   */
  lemma {:induction false} PreserveSilencesNewerRun(t: Thread, run: RunId, newer: RunId, afterSeq: Option<string>,
                                                    steerable: Option<bool>, token: nat, touched: set<ThreadId>,
                                                    lates: seq<Late>)
    requires run != "" && newer != "" && run != newer
    requires forall i :: 0 <= i < |lates| ==> !lates[i].LateEnd?
    ensures var started := t.Started(newer, afterSeq, steerable, token);
            var displaced := started.Preserved(run, None);
            && (t.HasPendingInterruptIn(touched, Some(run)) ==> InterruptedAnswer(started, run, touched) == displaced)
            && displaced.activeRunId == Some(run) && LateRun(displaced, newer, token, lates) == displaced
    decreases |lates|
  {
    var displaced := t.Started(newer, afterSeq, steerable, token).Preserved(run, None);
    if lates != [] {
      assert LateStep(displaced, newer, token, lates[0]) == displaced;
      PreserveSilencesNewerRun(t, run, newer, afterSeq, steerable, token, touched, lates[1..]);
    }
  }
}
