/**
 What the task store does show: requests that nothing overtakes are taken in
 full, the loading mark always has a request to wait for, and polling goes on.
 */
module TaskProgress {
  import opened Prelude
  import opened TaskStore
  import opened TaskRuns

  // ------------------------------------------------------------ what every run keeps

  predicate IsAsked(issued: seq<Ticket>, requestId: nat) {
    exists i :: 0 <= i < |issued| && issued[i].ListTicket? && issued[i].requestId == requestId
  }

  predicate IsAskedFor(issued: seq<Ticket>, id: TaskId, token: nat) {
    exists i :: 0 <= i < |issued| && issued[i].DetailTicket? && issued[i].taskId == id && issued[i].token == token
  }

  /**
   While the store is loading, the latest list request was sent; every detail it
   waits for was asked for. Polling waits and loading exclude each other, and only
   an administrator polls; with the drawer open, one of the two is always going on.
   */
  ghost predicate Alive(w: World) {
    && (w.store.loading ==> IsAsked(w.issued, w.store.listRequest))
    && (forall id :: id in w.store.details ==> IsAskedFor(w.issued, id, w.store.details[id]))
    && !(w.store.timer && w.store.loading)
    && (w.store.timer || w.store.loading ==> w.store.admin)
    && (w.store.drawerOpen && w.store.admin ==> w.store.timer || w.store.loading)
  }

  lemma IsAskedStays(issued: seq<Ticket>, more: seq<Ticket>, requestId: nat)
    ensures IsAsked(issued, requestId) ==> IsAsked(issued + more, requestId)
    ensures IsAsked(more, requestId) ==> IsAsked(issued + more, requestId)
  {
    if IsAsked(issued, requestId) {
      var i :| 0 <= i < |issued| && issued[i].ListTicket? && issued[i].requestId == requestId;
      assert (issued + more)[i] == issued[i];
    }
    if IsAsked(more, requestId) {
      var i :| 0 <= i < |more| && more[i].ListTicket? && more[i].requestId == requestId;
      assert (issued + more)[|issued| + i] == more[i];
    }
  }

  lemma IsAskedForStays(issued: seq<Ticket>, more: seq<Ticket>, id: TaskId, token: nat)
    ensures IsAskedFor(issued, id, token) ==> IsAskedFor(issued + more, id, token)
    ensures IsAskedFor(more, id, token) ==> IsAskedFor(issued + more, id, token)
  {
    if IsAskedFor(issued, id, token) {
      var i :| 0 <= i < |issued| && issued[i].DetailTicket? && issued[i].taskId == id && issued[i].token == token;
      assert (issued + more)[i] == issued[i];
    }
    if IsAskedFor(more, id, token) {
      var i :| 0 <= i < |more| && more[i].DetailTicket? && more[i].taskId == id && more[i].token == token;
      assert (issued + more)[|issued| + i] == more[i];
    }
  }

  /** What the store and the new tickets of one step must be like. */
  predicate StepAlive(s: Store, e: World) {
    && (e.store.loading ==>
        (s.loading && e.store.listRequest == s.listRequest) || IsAsked(e.issued, e.store.listRequest))
    && (forall id :: id in e.store.details ==>
          (id in s.details && e.store.details[id] == s.details[id]) || IsAskedFor(e.issued, id, e.store.details[id]))
    && !(e.store.timer && e.store.loading)
    && (e.store.timer || e.store.loading ==> e.store.admin)
    && (e.store.drawerOpen && e.store.admin ==> e.store.timer || e.store.loading)
  }

  predicate StoreAlive(s: Store) {
    && !(s.timer && s.loading) && (s.timer || s.loading ==> s.admin)
    && (s.drawerOpen && s.admin ==> s.timer || s.loading)
  }

  lemma EffectAlive(s: Store, a: Action)
    requires !a.Respond? && StoreAlive(s)
    ensures StepAlive(s, Effect(s, a))
  {
    var e := Effect(s, a);
    if a.RefreshTask? && a.id != "" {
      assert e.issued[0].DetailTicket? && e.issued[0].taskId == a.id && e.issued[0].token == s.nextToken;
    } else if e.issued != [] && e.issued[0].ListTicket? {
      assert e.issued[0].requestId == e.store.listRequest;
    }
  }

  lemma ReplyAlive(s: Store, t: Ticket, answer: Answer)
    requires StoreAlive(s) && Answers(t, answer)
    ensures StepAlive(s, Reply(s, t, answer))
  {
    var e := Reply(s, t, answer);
    if e.issued != [] {
      assert e.issued[0].DetailTicket? && e.issued[0].taskId == t.taskId && e.issued[0].token == s.nextToken;
    }
  }

  lemma StepKeepsAlive(w: World, a: Action)
    requires Allowed(w, a) && Alive(w)
    ensures Alive(Step(w, a))
  {
    var e := if a.Respond? then Reply(w.store, w.issued[a.ticket], a.answer) else Effect(w.store, a);
    if a.Respond? {
      ReplyAlive(w.store, w.issued[a.ticket], a.answer);
    } else {
      EffectAlive(w.store, a);
    }
    TicketsAlive(w, e);
  }

  lemma TicketsAlive(w: World, e: World)
    requires Alive(w) && StepAlive(w.store, e)
    ensures Alive(World(e.store, w.issued + e.issued))
  {
    IsAskedStays(w.issued, e.issued, e.store.listRequest);
    forall id | id in e.store.details ensures IsAskedFor(w.issued + e.issued, id, e.store.details[id]) {
      IsAskedForStays(w.issued, e.issued, id, e.store.details[id]);
    }
  }

  lemma {:induction false} RunKeepsAlive(w: World, actions: seq<Action>)
    requires Alive(w) && Possible(w, actions)
    ensures Alive(After(w, actions))
    decreases |actions|
  {
    if actions != [] {
      StepKeepsAlive(w, actions[0]);
      RunKeepsAlive(Step(w, actions[0]), actions[1..]);
    }
  }

  /** In every run from the empty store. */
  lemma {:induction false} AliveFromStart(actions: seq<Action>)
    requires Possible(START, actions)
    ensures Alive(After(START, actions))
  {
    RunKeepsAlive(START, actions);
  }

  // ------------------------------------------------------------ lists

  /** Neither asks for a list or changes the user, nor brings an answer that changes a task. */
  predicate LeavesLists(a: Action) {
    match a
    case LoadTasks => false
    case TimerFires(hidden) => hidden
    case ChangeUser(_) => false
    case Respond(_, answer) => answer.Failed? || answer == Detail(None)
    case _ => true
  }

  lemma EffectLeavesLists(s: Store, a: Action)
    requires !a.Respond? && LeavesLists(a)
    ensures SameLists(s, Effect(s, a).store)
  {
  }

  lemma ReplyLeavesLists(s: Store, t: Ticket, answer: Answer)
    requires Answers(t, answer) && (answer.Failed? || answer == Detail(None))
    ensures SameLists(s, Reply(s, t, answer).store)
  {
  }

  predicate SameLists(s: Store, after: Store) {
    && after.listRequest == s.listRequest && after.revision == s.revision
    && after.tasks == s.tasks && after.summary == s.summary && after.admin == s.admin
  }

  lemma LeavesListsKeeps(w: World, a: Action)
    requires Allowed(w, a) && LeavesLists(a)
    ensures SameLists(w.store, Step(w, a).store) && w.issued <= Step(w, a).issued
  {
    if a.Respond? {
      ReplyLeavesLists(w.store, w.issued[a.ticket], a.answer);
    } else {
      EffectLeavesLists(w.store, a);
    }
  }

  lemma {:induction false} RunKeepsLists(w: World, actions: seq<Action>)
    requires Possible(w, actions) && forall i :: 0 <= i < |actions| ==> LeavesLists(actions[i])
    ensures SameLists(w.store, After(w, actions).store) && w.issued <= After(w, actions).issued
    decreases |actions|
  {
    if actions != [] {
      LeavesListsKeeps(w, actions[0]);
      RunKeepsLists(Step(w, actions[0]), actions[1..]);
    }
  }

  /**
   A list an administrator asks for is what the store shows once the answer is there,
   whatever else happened meanwhile short of another list request, a change of user
   or a changed task; and polling goes on if the drawer is open or a task is active.
   */
  lemma {:induction false} ListIsShown(w: World, between: seq<Action>, summary: Summary, tasks: seq<Task>)
    requires w.store.admin && Possible(Step(w, LoadTasks), between)
    requires forall i :: 0 <= i < |between| ==> LeavesLists(between[i])
    ensures var asked := After(Step(w, LoadTasks), between);
            && |w.issued| < |asked.issued| && Allowed(asked, Respond(|w.issued|, Listing(summary, tasks)))
            && var shown := Step(asked, Respond(|w.issued|, Listing(summary, tasks))).store;
               && shown.tasks == tasks && shown.summary == summary && !shown.loading && shown.failures == 0
               && (shown.timer <==> shown.drawerOpen || AnyActive(summary, tasks))
  {
    var start := Step(w, LoadTasks);
    assert start.issued[|w.issued|] == ListTicket(start.store.listRequest, start.store.revision);
    RunKeepsLists(start, between);
    var asked := After(start, between);
    var taken := asked.store.(summary := summary, tasks := tasks, failures := 0, loading := false);
    assert Step(asked, Respond(|w.issued|, Listing(summary, tasks))).store == taken.Synced();
    ActiveMeans(taken);
  }

  /** The server counts pending, running or queued tasks, or one of those shown is. */
  predicate AnyActive(summary: Summary, tasks: seq<Task>) {
    || (exists status :: status in ["pending", "running", "queued"] && status in summary.statusCounts &&
                         summary.statusCounts[status] > 0)
    || (exists i :: 0 <= i < |tasks| && tasks[i].status in ["pending", "running", "queued"])
  }

  lemma ActiveMeans(s: Store)
    ensures s.HasActiveTasks() <==> AnyActive(s.summary, s.tasks)
  {
    var statuses := ["pending", "running", "queued"];
    assert statuses[0] in statuses && statuses[1] in statuses && statuses[2] in statuses;
    if s.summary.ActiveCount() > 0 {
      var status := if s.summary.Count("pending") > 0 then statuses[0]
                    else if s.summary.Count("running") > 0 then statuses[1] else statuses[2];
      assert status in s.summary.statusCounts && s.summary.statusCounts[status] > 0;
    }
    if exists i :: 0 <= i < |s.tasks| && s.tasks[i].status in statuses {
      var i :| 0 <= i < |s.tasks| && s.tasks[i].status in statuses;
      assert IsActive(s.tasks[i]);
    }
    if exists i :: 0 <= i < |s.tasks| && IsActive(s.tasks[i]) {
      var i :| 0 <= i < |s.tasks| && IsActive(s.tasks[i]);
      assert s.tasks[i].status in statuses;
    }
  }

  // ------------------------------------------------------------ single tasks

  /** The tasks of other ids, in their order. */
  function Others(tasks: seq<Task>, id: TaskId): seq<Task> {
    if tasks == [] then []
    else Others(tasks[..|tasks| - 1], id) + if tasks[|tasks| - 1].id != id then [tasks[|tasks| - 1]] else []
  }

  lemma {:induction false} OthersConcat(a: seq<Task>, b: seq<Task>, id: TaskId)
    ensures Others(a + b, id) == Others(a, id) + Others(b, id)
  {
    if b == [] {
      assert a + b == a && Others(a, id) + [] == Others(a, id);
    } else {
      var front, last := b[..|b| - 1], b[|b| - 1];
      OthersConcat(a, front, id);
      assert (a + b)[..|a + b| - 1] == a + front && (a + b)[|a + b| - 1] == last;
      Regroup(Others(a, id), Others(front, id), if last.id != id then [last] else []);
    }
  }

  /** The list without one entry of the id, or with it, has the same others. */
  lemma {:induction false} OthersAround(front: seq<Task>, task: Task, back: seq<Task>)
    ensures Others(front + [task] + back, task.id) == Others(front, task.id) + Others(back, task.id)
    ensures Others(front + back, task.id) == Others(front, task.id) + Others(back, task.id)
  {
    OthersConcat(front, back, task.id);
    OthersConcat(front + [task], back, task.id);
    OthersConcat(front, [task], task.id);
    assert [task][..0] == [];
    assert Others([task], task.id) == [];
    assert Others(front, task.id) + [] == Others(front, task.id);
  }

  /**
   The task is in the new list, the only one of its id if there was at most one before,
   and the others are as before.
   */
  ghost predicate ShowsIn(before: seq<Task>, task: Task, after: seq<Task>) {
    && task in after && Others(after, task.id) == Others(before, task.id)
    && (Distinct(before) ==> forall t :: t in after && t.id == task.id ==> t == task)
  }

  lemma ReplacingShows(tasks: seq<Task>, task: Task, i: nat)
    requires i < |tasks| && tasks[i].id == task.id
    ensures ShowsIn(tasks, task, tasks[i := task])
  {
    var front, back := tasks[..i], tasks[i + 1..];
    assert tasks == front + [tasks[i]] + back && tasks[i := task] == front + [task] + back;
    OthersAround(front, tasks[i], back);
    OthersAround(front, task, back);
    assert tasks[i := task][i] == task;
  }

  lemma PrependingShows(tasks: seq<Task>, task: Task)
    requires Gone(tasks, task.id)
    ensures ShowsIn(tasks, task, [task] + tasks)
  {
    OthersAround([], task, tasks);
    assert [] + [task] + tasks == [task] + tasks && [] + tasks == tasks;
    assert ([task] + tasks)[0] == task;
  }

  /** The task takes the place where its id stands first, or else comes to the front; all others are as before. */
  lemma UpsertShows(s: Store, task: Task)
    requires task.id != ""
    ensures var after := s.Upserted(task);
            && after == s.(tasks := after.tasks, revision := s.revision + 1) && ShowsIn(s.tasks, task, after.tasks)
            && if Gone(s.tasks, task.id) then after.tasks == [task] + s.tasks else |after.tasks| == |s.tasks|
  {
    var i := IndexOf(s.tasks, task.id);
    if i < |s.tasks| {
      ReplacingShows(s.tasks, task, i);
    } else {
      PrependingShows(s.tasks, task);
    }
  }

  /** A deletion of this session leaves the other tasks as they were. */
  lemma {:induction false} DeletingKeepsOthers(s: Store, id: TaskId)
    ensures Others(s.Deleted(s.generation, id).tasks, id) == Others(s.tasks, id)
    ensures s.Deleted(s.generation, id).revision > s.revision
  {
    var i := IndexOf(s.tasks, id);
    if i < |s.tasks| {
      var front, back := s.tasks[..i], s.tasks[i + 1..];
      assert s.tasks == front + [s.tasks[i]] + back;
      OthersAround(front, s.tasks[i], back);
    }
  }

  /**
   Leaves the details of the task asked for last as they are: no new request for it, no
   list, no deletion of it counts.
   */
  predicate LeavesDetail(a: Action, id: TaskId) {
    match a
    case LoadTasks => false
    case TimerFires(hidden) => hidden
    case ChangeUser(_) => false
    case RefreshTask(other) => other != id
    case Respond(_, answer) => answer.Listing? || answer.Submitted?
    case _ => true
  }

  /** The same list request is the latest, and the detail is still waited for with the same token. */
  predicate SameDetail(s: Store, after: Store, id: TaskId) {
    && after.listRequest == s.listRequest
    && id in s.details && id in after.details && after.details[id] == s.details[id]
  }

  lemma EffectLeavesDetail(s: Store, a: Action, id: TaskId)
    requires !a.Respond? && LeavesDetail(a, id) && id in s.details
    ensures SameDetail(s, Effect(s, a).store, id)
  {
  }

  lemma ReplyLeavesDetail(s: Store, t: Ticket, answer: Answer, id: TaskId)
    requires Answers(t, answer) && (answer.Listing? || answer.Submitted?) && id in s.details
    ensures SameDetail(s, Reply(s, t, answer).store, id)
  {
  }

  lemma LeavesDetailKeeps(w: World, a: Action, id: TaskId)
    requires Allowed(w, a) && LeavesDetail(a, id) && id in w.store.details
    ensures SameDetail(w.store, Step(w, a).store, id) && w.issued <= Step(w, a).issued
  {
    if a.Respond? {
      ReplyLeavesDetail(w.store, w.issued[a.ticket], a.answer, id);
    } else {
      EffectLeavesDetail(w.store, a, id);
    }
  }

  lemma {:induction false} RunKeepsDetail(w: World, actions: seq<Action>, id: TaskId)
    requires Possible(w, actions) && id in w.store.details
    requires forall i :: 0 <= i < |actions| ==> LeavesDetail(actions[i], id)
    ensures SameDetail(w.store, After(w, actions).store, id) && w.issued <= After(w, actions).issued
    decreases |actions|
  {
    if actions != [] {
      LeavesDetailKeeps(w, actions[0], id);
      RunKeepsDetail(Step(w, actions[0]), actions[1..], id);
    }
  }

  /**
   A task asked for is shown as it comes back, whatever lists, registrations and
   drawer moves happened meanwhile, and is no longer waited for.
   */
  lemma {:induction false} DetailIsShown(w: World, task: Task, between: seq<Action>)
    requires task.id != "" && Possible(Step(w, RefreshTask(task.id)), between)
    requires forall i :: 0 <= i < |between| ==> LeavesDetail(between[i], task.id)
    ensures var asked := After(Step(w, RefreshTask(task.id)), between);
            && |w.issued| < |asked.issued| && Allowed(asked, Respond(|w.issued|, Detail(Some(task))))
            && var shown := Step(asked, Respond(|w.issued|, Detail(Some(task)))).store;
               ShowsIn(asked.store.tasks, task, shown.tasks) && task.id !in shown.details
  {
    var start := Step(w, RefreshTask(task.id));
    assert start.issued[|w.issued|] == DetailTicket(task.id, w.store.nextToken, w.store.listRequest);
    RunKeepsDetail(start, between, task.id);
    UpsertShows(After(start, between).store, task);
  }

  /** The answer to a request that was asked again since, or overtaken by a list request, shows nothing. */
  lemma OvertakenDetailIsDropped(s: Store, id: TaskId, token: nat, listId: nat, answer: Answer)
    requires (answer.Detail? || answer.Failed?) &&
             (listId != s.listRequest || id !in s.details || s.details[id] != token)
    ensures s.DetailAnswered(id, token, listId, answer) ==
            s.(details := if id in s.details && s.details[id] == token then s.details - {id} else s.details)
  {
  }

  /** A queued task registered in its own session by an administrator is shown, and polled for if it is active. */
  lemma RegisteredIsShown(s: Store, task: Task)
    requires s.admin && task.id != ""
    ensures var after := s.Registered(s.generation, task);
            && ShowsIn(s.tasks, task, after.tasks)
            && (task.status in ["pending", "running", "queued"] ==> after.timer || after.loading)
  {
    UpsertShows(s, task);
    var after := s.Upserted(task);
    if task.status in ["pending", "running", "queued"] {
      var i :| 0 <= i < |after.tasks| && after.tasks[i] == task;
      assert IsActive(after.tasks[i]);
    }
  }

  /** A failed list request, being the latest one, is counted and shown, and leaves the tasks. */
  lemma FailureIsShown(s: Store, error: string)
    ensures var after := s.ListAnswered(s.listRequest, s.revision, Failed(error));
            && after.lastError == Some(error) && after.failures == s.failures + 1 && !after.loading
            && after.tasks == s.tasks && after.summary == s.summary
  {
  }

  /** After a change of user nothing of the last session is to be seen or waited for, and only counters remember it. */
  lemma UserChangeClears(w: World, admin: bool)
    ensures var after := Step(w, ChangeUser(admin)).store;
            && after.tasks == [] && after.summary == Summary(0, map[]) && after.lastError == None
            && !after.drawerOpen && !after.loading && !after.timer && after.failures == 0 && after.details == map[]
            && after.admin == admin
            && after.generation > w.store.generation && after.listRequest > w.store.listRequest
  {
  }

  /** Asking for the list takes an older error away and, without the right to it, empties the store. */
  lemma AskingClearsError(w: World)
    ensures var after := Step(w, LoadTasks).store;
            && after.lastError == None && after.loading == w.store.admin
            && after.tasks == if w.store.admin then w.store.tasks else []
  {
  }

  /** A registration of another session, or without the right, or without an id, changes nothing. */
  lemma ForeignRegistrationIsDropped(s: Store, asked: nat, task: Task)
    requires asked != s.generation || !s.admin || task.id == ""
    ensures s.Registered(asked, task) == s
  {
  }

  /** A failed detail request that is still the one waited for shows its error, and nothing else of it stays. */
  lemma DetailFailureIsShown(s: Store, id: TaskId, error: string)
    requires id in s.details
    ensures s.DetailAnswered(id, s.details[id], s.listRequest, Failed(error)) ==
            s.(lastError := Some(error), details := s.details - {id})
  {
  }

  /** A cancellation in its own session asks for the task again; a deletion stops waiting for it. */
  lemma CancellingAsksAgain(s: Store, id: TaskId)
    ensures var after := s.Answered(CancelTicket(s.generation, id), Done);
            && id in after.details && after.details[id] == s.nextToken && after.nextToken > s.nextToken
            && after.tasks == s.tasks
    ensures id !in s.Answered(DeleteTicket(s.generation, id), Done).details
    ensures forall asked :: asked != s.generation ==>
              s.Answered(CancelTicket(asked, id), Done) == s && s.Answered(DeleteTicket(asked, id), Done) == s
  {
  }
}
