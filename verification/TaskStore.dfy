/**
 The task list of the web client: requests leave with tickets, answers come back
 in any order and are checked against the store's counters before they count.
 A task is what is left of a raw one after normalisation.
 */
module TaskStore {
  import opened Prelude

  type TaskId = string

  datatype Task = Task(id: TaskId, status: string, info: string)

  datatype Summary = Summary(total: nat, statusCounts: map<string, nat>) {
    function Count(status: string): nat {
      if status in statusCounts then statusCounts[status] else 0
    }

    function ActiveCount(): nat {
      Count("pending") + Count("running") + Count("queued")
    }
  }

  const DEFAULT_SUMMARY := Summary(0, map[])

  predicate IsActive(task: Task) {
    task.status == "pending" || task.status == "running" || task.status == "queued"
  }

  function IndexOf(tasks: seq<Task>, id: TaskId): (i: nat)
    ensures i <= |tasks| && (i < |tasks| ==> tasks[i].id == id)
    ensures forall j :: 0 <= j < i ==> tasks[j].id != id
  {
    if tasks == [] || tasks[0].id == id then 0 else 1 + IndexOf(tasks[1..], id)
  }

  /** What a request remembers of the store when it leaves. */
  datatype Ticket =
    | ListTicket(requestId: nat, revision: nat)
    | DetailTicket(taskId: TaskId, token: nat, listId: nat)
    | CancelTicket(generation: nat, taskId: TaskId)
    | DeleteTicket(generation: nat, taskId: TaskId)
    | RegisterTicket(generation: nat)

  datatype Answer =
    | Listing(summary: Summary, tasks: seq<Task>)
    | Detail(task: Option<Task>)
    | Done
    | Submitted(queued: Task)
    | Failed(error: string)

  /** Answers of the right kind; the server answers a detail request with the task asked for. */
  predicate Answers(t: Ticket, a: Answer) {
    match t
    case ListTicket(_, _) => a.Listing? || a.Failed?
    case DetailTicket(taskId, _, _) => a.Failed? || (a.Detail? && (a.task.Some? ==> a.task.value.id == taskId))
    case CancelTicket(_, _) => a.Done? || a.Failed?
    case DeleteTicket(_, _) => a.Done? || a.Failed?
    case RegisterTicket(_) => a.Submitted?
  }

  datatype Store = Store(
    tasks: seq<Task>,
    loading: bool,
    lastError: Option<string>,
    drawerOpen: bool,
    summary: Summary,
    timer: bool,
    generation: nat,
    listRequest: nat,
    revision: nat,
    failures: nat,
    details: map<TaskId, nat>,
    nextToken: nat,
    admin: bool)
  {
    predicate HasActiveTasks() {
      summary.ActiveCount() > 0 || exists i :: 0 <= i < |tasks| && IsActive(tasks[i])
    }

    /** Polls while the drawer is open or a task is active. */
    function Synced(): Store {
      if admin && (drawerOpen || HasActiveTasks()) then this.(timer := timer || !loading)
      else this.(timer := false)
    }

    function Upserted(task: Task): Store {
      if task.id == "" then this
      else
        var i := IndexOf(tasks, task.id);
        this.(revision := revision + 1, tasks := if i < |tasks| then tasks[i := task] else [task] + tasks)
    }

    function Reset(): Store {
      this.(generation := generation + 1, listRequest := listRequest + 1, details := map[], failures := 0,
            loading := false,
            timer := false, tasks := [], lastError := None, drawerOpen := false, summary := DEFAULT_SUMMARY)
    }

    /** Asking for the list; without the right to, the store is emptied instead. */
    function ListAsked(): Store {
      if !admin then Reset()
      else this.(listRequest := listRequest + 1, timer := false, loading := true, lastError := None)
    }

    function DetailAsked(id: TaskId): Store {
      this.(details := details[id := nextToken], nextToken := nextToken + 1)
    }

    function ListAnswered(requestId: nat, seen: nat, a: Answer): Store
      requires a.Listing? || a.Failed?
    {
      var taken :=
        if requestId != listRequest || seen != revision then this
        else if a.Listing? then this.(summary := a.summary, tasks := a.tasks, failures := 0)
        else this.(lastError := Some(a.error), failures := failures + 1);
      if requestId == listRequest then taken.(loading := false).Synced() else taken
    }

    function DetailAnswered(id: TaskId, token: nat, listId: nat, a: Answer): Store
      requires a.Detail? || a.Failed?
    {
      if id !in details || details[id] != token then this
      else
        var taken :=
          if listId != listRequest then this
          else if a.Failed? then this.(lastError := Some(a.error))
          else if a.task.Some? then Upserted(a.task.value)
          else this;
        taken.(details := details - {id})
    }

    function Deleted(asked: nat, id: TaskId): Store {
      if asked != generation then this
      else
        var i := IndexOf(tasks, id);
        this.(revision := revision + 1, details := details - {id},
              tasks := if i < |tasks| then tasks[..i] + tasks[i + 1..] else tasks)
    }

    function Registered(asked: nat, task: Task): Store {
      if asked != generation || !admin || task.id == "" then this else Upserted(task).Synced()
    }

    function Answered(t: Ticket, a: Answer): Store
      requires Answers(t, a)
    {
      match t
      case ListTicket(requestId, seen) => ListAnswered(requestId, seen, a)
      case DetailTicket(id, token, listId) => DetailAnswered(id, token, listId, a)
      case CancelTicket(asked, id) => if asked == generation && a.Done? then DetailAsked(id) else this
      case DeleteTicket(asked, id) => if a.Done? then Deleted(asked, id) else this
      case RegisterTicket(asked) => Registered(asked, a.queued)
    }
  }

  const EMPTY_STORE := Store([], false, None, false, DEFAULT_SUMMARY, false, 0, 0, 0, 0, map[], 0, false)

  // ------------------------------------------------------------ the store as an object

  class TaskerStore {
    var tasks: seq<Task>
    var loading: bool
    var lastError: Option<string>
    var isDrawerOpen: bool
    var summary: Summary
    var pollingTimer: bool
    var sessionGeneration: nat
    var listRequestId: nat
    var taskRevision: nat
    var pollingFailures: nat
    var detailRequests: map<TaskId, nat>
    var nextToken: nat
    var isAdmin: bool

    function View(): Store
      reads this
    {
      Store(tasks, loading, lastError, isDrawerOpen, summary, pollingTimer, sessionGeneration, listRequestId,
            taskRevision, pollingFailures, detailRequests, nextToken, isAdmin)
    }

    constructor ()
      ensures View() == EMPTY_STORE
    {
      tasks, loading, lastError, isDrawerOpen, summary := [], false, None, false, DEFAULT_SUMMARY;
      pollingTimer, sessionGeneration, listRequestId, taskRevision, pollingFailures := false, 0, 0, 0, 0;
      detailRequests, nextToken, isAdmin := map[], 0, false;
    }

    method SyncPolling()
      modifies this`pollingTimer
      ensures View() == old(View()).Synced()
    {
      if isAdmin && (isDrawerOpen || View().HasActiveTasks()) {
        if !pollingTimer && !loading {
          pollingTimer := true;
        }
      } else {
        pollingTimer := false;
      }
    }

    method UpsertTask(task: Task)
      modifies this`taskRevision, this`tasks
      ensures View() == old(View()).Upserted(task)
    {
      if task.id == "" {
        return;
      }
      taskRevision := taskRevision + 1;
      var index := IndexOf(tasks, task.id);
      if index < |tasks| {
        tasks := tasks[index := task];
      } else {
        tasks := [task] + tasks;
      }
    }

    method Reset()
      modifies this
      ensures View() == old(View()).Reset()
    {
      sessionGeneration := sessionGeneration + 1;
      listRequestId := listRequestId + 1;
      detailRequests := map[];
      pollingFailures := 0;
      loading := false;
      pollingTimer := false;
      ShowNothing();
    }

    method ShowNothing()
      modifies this`tasks, this`lastError, this`isDrawerOpen, this`summary
      ensures tasks == [] && lastError == None && !isDrawerOpen && summary == DEFAULT_SUMMARY
    {
      tasks := [];
      lastError := None;
      isDrawerOpen := false;
      summary := DEFAULT_SUMMARY;
    }

    /** The part of loadTasks before the request leaves. */
    method LoadTasks() returns (ticket: Option<Ticket>)
      modifies this
      ensures View() == old(View()).ListAsked()
      ensures ticket == if old(isAdmin) then Some(ListTicket(old(listRequestId) + 1, old(taskRevision))) else None
    {
      if !isAdmin {
        Reset();
        return None;
      }
      listRequestId := listRequestId + 1;
      ticket := Some(ListTicket(listRequestId, taskRevision));
      pollingTimer := false;
      loading := true;
      lastError := None;
    }

    method TasksLoaded(requestId: nat, revision: nat, answer: Answer)
      requires answer.Listing? || answer.Failed?
      modifies this
      ensures View() == old(View()).ListAnswered(requestId, revision, answer)
    {
      if requestId == listRequestId && revision == taskRevision {
        if answer.Listing? {
          summary := answer.summary;
          tasks := answer.tasks;
          pollingFailures := 0;
        } else {
          lastError := Some(answer.error);
          pollingFailures := pollingFailures + 1;
        }
      }
      if requestId == listRequestId {
        loading := false;
        SyncPolling();
      }
    }

    method RefreshTask(taskId: TaskId) returns (ticket: Ticket)
      modifies this`detailRequests, this`nextToken
      ensures View() == old(View()).DetailAsked(taskId)
      ensures ticket == DetailTicket(taskId, old(nextToken), listRequestId)
    {
      ticket := DetailTicket(taskId, nextToken, listRequestId);
      detailRequests := detailRequests[taskId := nextToken];
      nextToken := nextToken + 1;
    }

    method TaskRefreshed(taskId: TaskId, request: nat, listId: nat, answer: Answer)
      requires answer.Detail? || answer.Failed?
      modifies this
      ensures View() == old(View()).DetailAnswered(taskId, request, listId, answer)
    {
      var current := taskId in detailRequests && detailRequests[taskId] == request;
      if current && listId == listRequestId {
        if answer.Failed? {
          lastError := Some(answer.error);
        } else if answer.task.Some? {
          UpsertTask(answer.task.value);
        }
      }
      if current {
        detailRequests := detailRequests - {taskId};
      }
    }

    method TaskCancelled(generation: nat, taskId: TaskId) returns (ticket: Option<Ticket>)
      modifies this`detailRequests, this`nextToken
      ensures View() == old(View()).Answered(CancelTicket(generation, taskId), Done)
      ensures ticket ==
              if generation == sessionGeneration then Some(DetailTicket(taskId, old(nextToken), listRequestId))
              else None
    {
      if generation != sessionGeneration {
        return None;
      }
      var refresh := RefreshTask(taskId);
      ticket := Some(refresh);
    }

    method TaskDeleted(generation: nat, taskId: TaskId)
      modifies this
      ensures View() == old(View()).Deleted(generation, taskId)
    {
      if generation != sessionGeneration {
        return;
      }
      taskRevision := taskRevision + 1;
      detailRequests := detailRequests - {taskId};
      var index := IndexOf(tasks, taskId);
      if index < |tasks| {
        tasks := tasks[..index] + tasks[index + 1..];
      }
    }

    method RegisterQueuedTask(generation: nat, task: Task)
      modifies this
      ensures View() == old(View()).Registered(generation, task)
    {
      if generation != sessionGeneration || !isAdmin {
        return;
      }
      if task.id == "" {
        return;
      }
      UpsertTask(task);
      SyncPolling();
    }
  }
}
