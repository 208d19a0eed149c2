/**
 What the state of a chat thread means, over any mix of starts, events,
 finalisations, preserved interrupts and ends of streams.
 */
module RunLife {
  import opened Prelude
  import opened RunSeq
  import opened RunStream

  /** A thread that was never used. */
  const IDLE := Thread(None, ORIGIN, None, false, false, None, None, false, None, map[])

  datatype Op =
    | Start(runId: RunId, afterSeq: Option<string>, steerable: Option<bool>, token: nat)
    | Receive(runId: RunId, hasData: bool, eventId: Option<string>)
    | Finalize(finished: Option<RunId>, touched: set<ThreadId>, interrupted: bool, expected: Option<RunId>)
    | Preserve(runId: RunId, lastSeq: Option<string>)
    | End(own: nat)
    | Interrupted(id: Option<ThreadId>, interrupt: Interrupt)
    | Sent(requestId: string)

  /** The last two stand for what events and the input box do: an interrupt comes up, a request leaves. */
  function Apply(t: Thread, op: Op): Thread {
    match op
    case Start(runId, afterSeq, steerable, token) => t.Started(runId, afterSeq, steerable, token)
    case Receive(runId, hasData, eventId) => t.Event(runId, hasData, eventId)
    case Finalize(runId, touched, interrupted, expected) => t.Finalized(runId, touched, interrupted, expected)
    case Preserve(runId, lastSeq) => t.Preserved(runId, lastSeq)
    case End(own) => t.Ended(own)
    case Interrupted(None, interrupt) => t.(pendingInterrupt := Some(interrupt))
    case Interrupted(Some(id), interrupt) => t.(others := t.others[id := interrupt])
    case Sent(requestId) => t.(pendingRequestId := Some(requestId), replyLoadingVisible := true)
  }

  function AfterOps(t: Thread, ops: seq<Op>): Thread {
    if ops == [] then t else Apply(AfterOps(t, ops[..|ops| - 1]), ops[|ops| - 1])
  }

  predicate IsRun(runId: Option<RunId>) {
    runId.Some? && runId.value != ""
  }

  /**
   A thread streams only an active run and is steerable only while it streams; and
   what is stored of an active run is that run with the cursor reached.
   */
  predicate Coherent(t: Thread) {
    && (t.isStreaming ==> IsRun(t.activeRunId))
    && (t.activeRunSteerable ==> t.isStreaming)
    && (IsRun(t.activeRunId) ==> t.snapshot == Some(Snapshot(t.activeRunId.value, t.runLastSeq)))
    && IsRunSeq(t.runLastSeq)
  }

  lemma SavedIs(runId: RunId, cursor: string, before: Option<Snapshot>)
    requires runId != "" && IsRunSeq(cursor)
    ensures Saved(Some(runId), cursor, before) == Some(Snapshot(runId, cursor))
  {
    TrimKeepsRunSeq(cursor);
  }

  lemma StartKeeps(t: Thread, op: Op)
    requires Coherent(t) && op.Start?
    ensures Coherent(Apply(t, op))
  {
    NormalizeIsStable(op.afterSeq);
    if op.runId != "" {
      SavedIs(op.runId, NormalizeRunSeq(op.afterSeq), t.snapshot);
    }
  }

  lemma ReceiveKeeps(t: Thread, op: Op)
    requires Coherent(t) && op.Receive?
    ensures Coherent(Apply(t, op))
  {
    NormalizeIsStable(op.eventId);
    if op.runId != "" {
      SavedIs(op.runId, NormalizeRunSeq(op.eventId), t.snapshot);
    }
  }

  lemma FinalizeKeeps(t: Thread, op: Op)
    requires Coherent(t) && op.Finalize?
    ensures Coherent(Apply(t, op))
  {
    OriginIsRunSeq();
    if IsRun(op.finished) {
      SavedIs(op.finished.value, t.runLastSeq, t.snapshot);
    }
  }

  lemma PreserveKeeps(t: Thread, op: Op)
    requires Coherent(t) && op.Preserve?
    ensures Coherent(Apply(t, op))
  {
    NormalizeIsStable(if op.lastSeq.Some? && op.lastSeq.value != "" then op.lastSeq
                      else if t.runLastSeq != "" then Some(t.runLastSeq) else Some(ORIGIN));
    if op.runId != "" {
      SavedIs(op.runId, t.CursorToKeep(op.lastSeq), t.snapshot);
    }
  }

  /** That holds after any operations on an unused thread. */
  lemma {:induction false} StaysCoherent(ops: seq<Op>)
    ensures Coherent(AfterOps(IDLE, ops))
  {
    if ops == [] {
      OriginIsRunSeq();
    } else {
      var t, op := AfterOps(IDLE, ops[..|ops| - 1]), ops[|ops| - 1];
      StaysCoherent(ops[..|ops| - 1]);
      match op {
        case Start(_, _, _, _) => StartKeeps(t, op);
        case Receive(_, _, _) => ReceiveKeeps(t, op);
        case Finalize(_, _, _, _) => FinalizeKeeps(t, op);
        case Preserve(_, _) => PreserveKeeps(t, op);
        case _ =>
      }
    }
  }

  /** So starting the stored run from the stored cursor, as after a reload, is starting at the place reached. */
  lemma {:induction false} SnapshotResumes(ops: seq<Op>, reloaded: Thread, token: nat)
    requires var t := AfterOps(IDLE, ops); IsRun(t.activeRunId) && reloaded.snapshot == t.snapshot
    ensures reloaded.snapshot.Some?
    ensures var t := AfterOps(IDLE, ops);
            var stored := reloaded.snapshot.value;
            var resumed := reloaded.Started(stored.runId, Some(stored.lastSeq), None, token);
            && resumed.activeRunId == t.activeRunId && resumed.runLastSeq == t.runLastSeq
            && resumed.snapshot == t.snapshot
            && forall data, eventId ::
                 resumed.Passes(stored.runId, data, eventId) <==> t.Passes(stored.runId, data, eventId)
  {
    StaysCoherent(ops);
    var t := AfterOps(IDLE, ops);
    TrimKeepsRunSeq(t.runLastSeq);
  }

  // ------------------------------------------------------------ the end of a run

  /** Nothing is going on any more. */
  predicate Settled(t: Thread) {
    && t.activeRunId.None? && t.snapshot.None?
    && !t.isStreaming && !t.activeRunSteerable && !t.replyLoadingVisible && t.pendingRequestId.None?
  }

  /** The interrupt names this run, or no run. */
  predicate MayBelongTo(i: Interrupt, runId: RunId) {
    i.runId.None? || i.runId.value == runId
  }

  /**
   Finalising the active run settles the thread, unless it is interrupted with an
   interrupt of its own pending in one of its threads. Its interrupts are gone from
   those threads, and interrupts of other runs and other threads stay.
   */
  lemma FinalizedIsSettled(t: Thread, runId: RunId, touched: set<ThreadId>, interrupted: bool)
    requires t.activeRunId == Some(runId)
    ensures var after := t.Finalized(Some(runId), touched, interrupted, Some(runId));
            if interrupted && ((t.pendingInterrupt.Some? && MayBelongTo(t.pendingInterrupt.value, runId)) ||
                               exists id :: id in touched && id in t.others && MayBelongTo(t.others[id], runId))
            then
              && after == t.(isStreaming := false, activeRunSteerable := false, replyLoadingVisible := false,
                             pendingRequestId := None, snapshot := Saved(Some(runId), t.runLastSeq, t.snapshot))
            else
              && Settled(after) && after.runLastSeq == t.runLastSeq && after.controller == t.controller
              && (t.pendingInterrupt.Some? && !MayBelongTo(t.pendingInterrupt.value, runId) ==>
                    after.pendingInterrupt == t.pendingInterrupt)
              && (after.pendingInterrupt.Some? ==> !MayBelongTo(after.pendingInterrupt.value, runId))
              && (forall id :: id in after.others <==>
                    id in t.others && !(id in touched && MayBelongTo(t.others[id], runId)))
              && (forall id :: id in after.others ==> after.others[id] == t.others[id])
  {
    var pending := exists id :: id in touched && id in t.others && MayBelongTo(t.others[id], runId);
    if pending {
      var id :| id in touched && id in t.others && MayBelongTo(t.others[id], runId);
      assert t.others[id].Concerns(Some(runId));
    }
    if t.HasPendingInterruptIn(touched, Some(runId)) && !t.HasPendingInterrupt(Some(runId)) {
      var id :| id in touched && id in t.others && t.others[id].Concerns(Some(runId));
      assert MayBelongTo(t.others[id], runId);
    }
  }

  /** Settling a thread without a run also puts its cursor back and drops every interrupt of the touched threads. */
  lemma SettledThreadIsFresh(t: Thread, touched: set<ThreadId>)
    requires t.activeRunId.None?
    ensures var after := t.Finalized(None, touched, false, None);
            && Settled(after) && after.runLastSeq == ORIGIN && after.pendingInterrupt.None?
            && (forall id :: id in after.others <==> id in t.others && id !in touched)
            && (forall id :: id in after.others ==> after.others[id] == t.others[id])
  {
  }

  /**
   What a stream of a finished run still does, at any time after, changes nothing but the
   end of its own connection.
   */
  predicate IsLate(op: Op, runId: RunId) {
    || (op.Receive? && op.runId == runId)
    || (op.Finalize? && op.finished == Some(runId) && op.expected == Some(runId))
    || op.End?
  }

  lemma {:induction false} FinishedRunIsOver(t: Thread, runId: RunId, ops: seq<Op>)
    requires Settled(t) && forall i :: 0 <= i < |ops| ==> IsLate(ops[i], runId)
    ensures var after := AfterOps(t, ops);
            after == t.(controller := after.controller) && (after.controller.Some? ==> after.controller == t.controller)
    ensures var after := AfterOps(t, ops);
            t.controller.Some? && End(t.controller.value) in ops ==> after.controller.None?
  {
    if ops != [] {
      FinishedRunIsOver(t, runId, ops[..|ops| - 1]);
      assert IsLate(ops[|ops| - 1], runId);
      assert ops == ops[..|ops| - 1] + [ops[|ops| - 1]];
    }
  }

  // ------------------------------------------------------------ starting

  /** A start says whether the run can be steered; a reconnect keeps it, and another run starts without. */
  lemma StartSteers(t: Thread, runId: RunId, afterSeq: Option<string>, token: nat)
    requires runId != ""
    ensures forall steerable: bool :: t.Started(runId, afterSeq, Some(steerable), token).activeRunSteerable == steerable
    ensures t.Started(runId, afterSeq, None, token).activeRunSteerable ==
            (t.activeRunId == Some(runId) && t.activeRunSteerable)
    ensures var after := t.Started(runId, afterSeq, None, token);
            after.isStreaming && after.controller == Some(token) && !after.Reconnects(runId) &&
            after.Ended(token).Reconnects(runId)
  {
  }

  /**
   A preserved run waits for an answer: nothing streams or loads, its interrupts and the
   connection are as they were.
   */
  lemma PreservedWaits(t: Thread, runId: RunId, lastSeq: Option<string>)
    requires runId != ""
    ensures var after := t.Preserved(runId, lastSeq);
            && after.activeRunId == Some(runId) && !after.isStreaming && !after.activeRunSteerable
            && !after.replyLoadingVisible && after.pendingRequestId.None?
            && after.pendingInterrupt == t.pendingInterrupt && after.others == t.others
            && after.controller == t.controller
  {
  }

  /** The end of a stream lets go of its own connection only, and with no run active nothing is waited for any more. */
  lemma EndedLetsGo(t: Thread, own: nat)
    ensures var after := t.Ended(own);
            && after.controller == (if t.controller == Some(own) then None else t.controller)
            && (IsRun(t.activeRunId) ==> after == t.(controller := after.controller))
            && (!IsRun(t.activeRunId) ==>
                  after == t.(controller := after.controller, isStreaming := false, replyLoadingVisible := false,
                              pendingRequestId := None))
  {
  }

  /** Only events with data count, and of these any without an id as long as their run is the active one. */
  lemma OnlyDataCounts(t: Thread, runId: RunId, eventId: Option<string>)
    ensures !t.Passes(runId, false, eventId) && t.Event(runId, false, eventId) == t
    ensures t.Passes(runId, true, None) <==> t.activeRunId == Some(runId)
    ensures t.Passes(runId, true, Some("")) <==> t.activeRunId == Some(runId)
    ensures t.Event(runId, true, None) == t.Event(runId, true, Some("")) == t
  {
  }
}
