/**
 The state a chat thread keeps for its run stream, and what the stream functions
 do to it: starting, cursor check, finalisation, and the guards between them.
 */
module RunStream {
  import opened Prelude
  import opened RunSeq

  type RunId = string

  type ThreadId = string

  /** What local storage keeps of the active run. */
  datatype Snapshot = Snapshot(runId: RunId, lastSeq: string)

  /** Local storage after saving a run; a missing or empty run saves nothing. */
  function Saved(runId: Option<RunId>, lastSeq: string, before: Option<Snapshot>): Option<Snapshot> {
    if runId.Some? && runId.value != "" then Some(Snapshot(runId.value, NormalizeRunSeq(Some(lastSeq)))) else before
  }

  /** A pending interrupt may name the run it interrupted. */
  datatype Interrupt = Interrupt(runId: Option<RunId>) {
    /** It waits for an answer to this run: it names the run, or none. */
    predicate Concerns(run: Option<RunId>) {
      runId.None? || runId == run
    }
  }

  datatype Thread = Thread(
    activeRunId: Option<RunId>,
    runLastSeq: string,
    controller: Option<nat>,
    isStreaming: bool,
    activeRunSteerable: bool,
    pendingInterrupt: Option<Interrupt>,
    pendingRequestId: Option<string>,
    replyLoadingVisible: bool,
    snapshot: Option<Snapshot>,
    others: map<ThreadId, Interrupt>)   // pending interrupts of the other threads
  {
    predicate HasPendingInterrupt(runId: Option<RunId>) {
      pendingInterrupt.Some? && pendingInterrupt.value.Concerns(runId)
    }

    /** In this thread, or in another one the run's events have touched. */
    predicate HasPendingInterruptIn(touched: set<ThreadId>, runId: Option<RunId>) {
      HasPendingInterrupt(runId) || exists id :: id in touched && id in others && others[id].Concerns(runId)
    }

    /**
     The interrupts of the other threads, without those of touched threads that concern
     the run; with no run, without all of theirs.
     */
    function OthersCleared(touched: set<ThreadId>, runId: Option<RunId>): map<ThreadId, Interrupt> {
      map id | id in others && !(id in touched && (runId.None? || others[id].Concerns(runId))) :: others[id]
    }

    function Started(runId: RunId, afterSeq: Option<string>, steerable: Option<bool>, token: nat): Thread {
      if runId == "" then this
      else
        var same := activeRunId == Some(runId);
        var seqNow := NormalizeRunSeq(afterSeq);
        this.(activeRunId := Some(runId),
              runLastSeq := seqNow,
              controller := Some(token),
              isStreaming := true,
              activeRunSteerable := if steerable.Some? then steerable.value else same && activeRunSteerable,
              snapshot := Saved(Some(runId), seqNow, snapshot))
    }

    /** An event of a run with data reaches the chunk handler. */
    predicate Passes(runId: RunId, hasData: bool, eventId: Option<string>) {
      && hasData && activeRunId == Some(runId)
      && (eventId.Some? && eventId.value != "" ==> CompareRunSeq(NormalizeRunSeq(eventId), runLastSeq) > 0)
    }

    function Event(runId: RunId, hasData: bool, eventId: Option<string>): Thread {
      if Passes(runId, hasData, eventId) && eventId.Some? && eventId.value != "" then
        var incoming := NormalizeRunSeq(eventId);
        this.(runLastSeq := incoming,
              snapshot := Saved(Some(runId), incoming, snapshot))
      else this
    }

    /**
     The run is over, or, with no run, the thread is settled as idle; only if the active
     run is still the expected one.
     */
    function Finalized(runId: Option<RunId>, touched: set<ThreadId>, interruptedStatus: bool,
                       expected: Option<RunId>): Thread {
      if activeRunId != expected then this
      else
        var isInterrupted := interruptedStatus && HasPendingInterruptIn(touched, runId);
        var seqNow := if runId.None? then ORIGIN else runLastSeq;
        var settled := this.(isStreaming := false, activeRunSteerable := false, runLastSeq := seqNow,
                             replyLoadingVisible := false, pendingRequestId := None);
        if isInterrupted then
          settled.(activeRunId := runId,
                   snapshot := Saved(runId, seqNow, snapshot))
        else
          settled.(activeRunId := None, snapshot := None, others := OthersCleared(touched, runId),
                   pendingInterrupt := if runId.None? || HasPendingInterrupt(runId) then None else pendingInterrupt)
    }

    /** The snapshot's cursor, else the current one. */
    function CursorToKeep(lastSeq: Option<string>): string {
      NormalizeRunSeq(if lastSeq.Some? && lastSeq.value != "" then lastSeq
                      else if runLastSeq != "" then Some(runLastSeq) else Some(ORIGIN))
    }

    function Preserved(runId: RunId, lastSeq: Option<string>): Thread {
      if runId == "" then this
      else
        var seqNow := CursorToKeep(lastSeq);
        this.(activeRunId := Some(runId), activeRunSteerable := false, runLastSeq := seqNow, isStreaming := false,
              replyLoadingVisible := false, pendingRequestId := None,
              snapshot := Saved(Some(runId), seqNow, snapshot))
    }

    /** The end of a stream's function, however it was left. */
    function Ended(own: nat): Thread {
      var left := if controller == Some(own) then this.(controller := None) else this;
      if left.activeRunId.Some? && left.activeRunId.value != "" then left
      else left.(isStreaming := false, replyLoadingVisible := false, pendingRequestId := None)
    }

    /** The reconnect timer starts the stream again only for the run that is still active and not connected. */
    predicate Reconnects(runId: RunId) {
      activeRunId == Some(runId) && controller.None?
    }
  }

  class RunThread {
    var activeRunId: Option<RunId>
    var runLastSeq: string
    var controller: Option<nat>
    var isStreaming: bool
    var activeRunSteerable: bool
    var pendingInterrupt: Option<Interrupt>
    var pendingRequestId: Option<string>
    var replyLoadingVisible: bool
    var snapshot: Option<Snapshot>
    var others: map<ThreadId, Interrupt>

    function View(): Thread
      reads this
    {
      Thread(activeRunId, runLastSeq, controller, isStreaming, activeRunSteerable,
             pendingInterrupt, pendingRequestId, replyLoadingVisible, snapshot, others)
    }

    method SaveActiveRunSnapshot(runId: Option<RunId>, lastSeq: string)
      modifies this`snapshot
      ensures snapshot == Saved(runId, lastSeq, old(snapshot))
    {
      if runId.Some? && runId.value != "" {
        snapshot := Some(Snapshot(runId.value, NormalizeRunSeq(Some(lastSeq))));
      }
    }

    /** Moves the cursor and stores it. */
    method SetCursor(runId: RunId, cursor: string)
      modifies this`runLastSeq, this`snapshot
      ensures View() == old(View()).(runLastSeq := cursor, snapshot := Saved(Some(runId), cursor, old(snapshot)))
    {
      runLastSeq := cursor;
      SaveActiveRunSnapshot(Some(runId), cursor);
    }

    method StartRunStream(runId: RunId, afterSeq: Option<string>, steerable: Option<bool>, token: nat)
      modifies this
      ensures View() == old(View()).Started(runId, afterSeq, steerable, token)
    {
      if runId == "" {
        return;
      }
      var isSameRun := activeRunId == Some(runId);
      var initialSteerable := if steerable.Some? then steerable.value else isSameRun && activeRunSteerable;
      controller := Some(token);
      activeRunId := Some(runId);
      activeRunSteerable := initialSteerable;
      isStreaming := true;
      SetCursor(runId, NormalizeRunSeq(afterSeq));
    }

    method OnRunEvent(runId: RunId, hasData: bool, eventId: Option<string>) returns (passed: bool)
      modifies this
      ensures passed == old(View()).Passes(runId, hasData, eventId)
      ensures View() == old(View()).Event(runId, hasData, eventId)
    {
      if !hasData || activeRunId != Some(runId) {
        return false;
      }
      if eventId.Some? && eventId.value != "" {
        var incomingSeq := NormalizeRunSeq(eventId);
        if CompareRunSeq(incomingSeq, runLastSeq) <= 0 {
          return false;
        }
        SetCursor(runId, incomingSeq);
      }
      return true;
    }

    /** Of this thread and the touched others, those of the run, or with no run all. */
    method ClearPendingInterrupts(runId: Option<RunId>, touched: set<ThreadId>)
      modifies this`others, this`pendingInterrupt
      ensures others == old(View()).OthersCleared(touched, runId)
      ensures pendingInterrupt ==
              if runId.None? || old(View()).HasPendingInterrupt(runId) then None else old(pendingInterrupt)
    {
      others := View().OthersCleared(touched, runId);
      if runId.None? || View().HasPendingInterrupt(runId) {
        pendingInterrupt := None;
      }
    }

    method FinalizeRunStream(runId: Option<RunId>, touched: set<ThreadId>, interruptedStatus: bool,
                             expected: Option<RunId>)
      returns (finalized: bool)
      modifies this
      ensures finalized <==> old(activeRunId) == expected
      ensures View() == old(View()).Finalized(runId, touched, interruptedStatus, expected)
    {
      if activeRunId != expected {
        return false;
      }
      var isInterrupted := interruptedStatus && View().HasPendingInterruptIn(touched, runId);
      isStreaming := false;
      activeRunSteerable := false;
      if runId.None? {
        runLastSeq := ORIGIN;
      }
      if isInterrupted {
        activeRunId := runId;
        SaveActiveRunSnapshot(runId, runLastSeq);
      } else {
        activeRunId := None;
        snapshot := None;
        ClearPendingInterrupts(runId, touched);
      }
      replyLoadingVisible := false;
      pendingRequestId := None;
      return true;
    }

    /** The part of preserveInterruptedRun before it waits for the messages. */
    method PreserveInterruptedRun(runId: RunId, lastSeq: Option<string>)
      modifies this
      ensures View() == old(View()).Preserved(runId, lastSeq)
    {
      if runId == "" {
        return;
      }
      var keptSeq := View().CursorToKeep(lastSeq);
      activeRunId := Some(runId);
      activeRunSteerable := false;
      isStreaming := false;
      replyLoadingVisible := false;
      pendingRequestId := None;
      SetCursor(runId, keptSeq);
    }

    method EndStream(own: nat)
      modifies this
      ensures View() == old(View()).Ended(own)
    {
      if controller == Some(own) {
        controller := None;
      }
      if activeRunId.None? || activeRunId.value == "" {
        isStreaming := false;
        replyLoadingVisible := false;
        pendingRequestId := None;
      }
    }
  }
}
