/** Runs of the task store: any requests, any answers in any order, user changes, timers and drawer moves. */
module TaskRuns {
  import opened Prelude
  import opened TaskStore

  /** The store, and the tickets of all requests that ever left, in order. */
  datatype World = World(store: Store, issued: seq<Ticket>)

  datatype Action =
    | LoadTasks
    | RefreshTask(id: TaskId)
    | CancelTask(id: TaskId)
    | DeleteTask(id: TaskId)
    | BeginRegistration
    | OpenDrawer
    | CloseDrawer
    | TimerFires(hidden: bool)
    | ChangeUser(admin: bool)
    | Respond(ticket: nat, answer: Answer)

  predicate Allowed(w: World, a: Action) {
    match a
    case TimerFires(_) => w.store.timer
    case Respond(i, answer) => i < |w.issued| && Answers(w.issued[i], answer)
    case _ => true
  }

  function Asked(s: Store): World {
    World(s.ListAsked(), if s.admin then [ListTicket(s.listRequest + 1, s.revision)] else [])
  }

  /** The store after an action, and the tickets of the requests it sends. */
  function Effect(s: Store, a: Action): World
    requires !a.Respond?
  {
    match a
    case LoadTasks => Asked(s)
    case RefreshTask(id) =>
      if id == "" then World(s, []) else World(s.DetailAsked(id), [DetailTicket(id, s.nextToken, s.listRequest)])
    case CancelTask(id) => World(s, if id == "" then [] else [CancelTicket(s.generation, id)])
    case DeleteTask(id) => World(s, if id == "" then [] else [DeleteTicket(s.generation, id)])
    case BeginRegistration => World(s, [RegisterTicket(s.generation)])
    case OpenDrawer => World(s.(drawerOpen := true).Synced(), [])
    case CloseDrawer => World(s.(drawerOpen := false).Synced(), [])
    case TimerFires(hidden) => if hidden then World(s.(timer := false).Synced(), []) else Asked(s.(timer := false))
    case ChangeUser(admin) => World(s.(admin := admin).Reset(), [])
  }

  /** An answer that counts may send a request of its own: a cancelled task is asked for again. */
  function Reply(s: Store, t: Ticket, answer: Answer): World
    requires Answers(t, answer)
  {
    World(s.Answered(t, answer),
          if t.CancelTicket? && t.generation == s.generation && answer.Done?
          then [DetailTicket(t.taskId, s.nextToken, s.listRequest)] else [])
  }

  function Step(w: World, a: Action): World
    requires Allowed(w, a)
  {
    var e := if a.Respond? then Reply(w.store, w.issued[a.ticket], a.answer) else Effect(w.store, a);
    World(e.store, w.issued + e.issued)
  }

  // ------------------------------------------------------------ tickets and counters

  /** The ticket was taken from this store, now or before. */
  predicate Known(s: Store, t: Ticket) {
    match t
    case ListTicket(requestId, seen) => requestId <= s.listRequest && seen <= s.revision
    case DetailTicket(_, token, listId) => token < s.nextToken && listId <= s.listRequest
    case CancelTicket(asked, _) => asked <= s.generation
    case DeleteTicket(asked, _) => asked <= s.generation
    case RegisterTicket(asked) => asked <= s.generation
  }

  predicate AllKnown(w: World) {
    forall i :: 0 <= i < |w.issued| ==> Known(w.store, w.issued[i])
  }

  /** Counters never fall, and a token once given out is waited for only if it already was. */
  predicate Later(s: Store, after: Store) {
    && s.generation <= after.generation && s.listRequest <= after.listRequest
    && s.revision <= after.revision && s.nextToken <= after.nextToken
    && forall id :: id in after.details && after.details[id] < s.nextToken ==>
         id in s.details && s.details[id] == after.details[id]
  }

  lemma ListAnswerIsLater(s: Store, requestId: nat, seen: nat, answer: Answer)
    requires answer.Listing? || answer.Failed?
    ensures Later(s, s.ListAnswered(requestId, seen, answer))
  {
  }

  lemma DetailAnswerIsLater(s: Store, id: TaskId, token: nat, listId: nat, answer: Answer)
    requires answer.Detail? || answer.Failed?
    ensures Later(s, s.DetailAnswered(id, token, listId, answer))
  {
  }

  lemma AnswerIsLater(s: Store, t: Ticket, answer: Answer)
    requires Answers(t, answer)
    ensures Later(s, s.Answered(t, answer))
  {
    match t {
      case ListTicket(requestId, seen) => ListAnswerIsLater(s, requestId, seen, answer);
      case DetailTicket(id, token, listId) => DetailAnswerIsLater(s, id, token, listId, answer);
      case _ =>
    }
  }

  lemma EffectIsLater(s: Store, a: Action)
    requires !a.Respond?
    ensures Later(s, Effect(s, a).store)
  {
  }

  lemma StepIsLater(w: World, a: Action)
    requires Allowed(w, a)
    ensures Later(w.store, Step(w, a).store)
  {
    if a.Respond? {
      AnswerIsLater(w.store, w.issued[a.ticket], a.answer);
    } else {
      EffectIsLater(w.store, a);
    }
  }

  lemma NewTicketsKnown(w: World, a: Action)
    requires Allowed(w, a)
    ensures var e := if a.Respond? then Reply(w.store, w.issued[a.ticket], a.answer) else Effect(w.store, a);
            forall i :: 0 <= i < |e.issued| ==> Known(e.store, e.issued[i])
  {
  }

  lemma StepKeepsKnown(w: World, a: Action)
    requires Allowed(w, a) && AllKnown(w)
    ensures AllKnown(Step(w, a))
  {
    StepIsLater(w, a);
    NewTicketsKnown(w, a);
  }

  // ------------------------------------------------------------ old sessions

  /** The store will not take an answer for this ticket. */
  predicate Stale(s: Store, t: Ticket) {
    match t
    case ListTicket(requestId, _) => requestId < s.listRequest
    case DetailTicket(id, token, listId) =>
      listId < s.listRequest && token < s.nextToken && (id in s.details ==> s.details[id] != token)
    case CancelTicket(asked, _) => asked < s.generation
    case DeleteTicket(asked, _) => asked < s.generation
    case RegisterTicket(asked) => asked < s.generation
  }

  lemma StaleStays(s: Store, after: Store, t: Ticket)
    requires Later(s, after) && Stale(s, t)
    ensures Stale(after, t)
  {
  }

  lemma StaleIsInert(s: Store, t: Ticket, answer: Answer)
    requires Stale(s, t) && Answers(t, answer)
    ensures Reply(s, t, answer) == World(s, [])
  {
  }

  lemma ResetMakesStale(s: Store, t: Ticket)
    requires Known(s, t)
    ensures Stale(s.Reset(), t)
  {
  }

  predicate Possible(w: World, actions: seq<Action>)
    decreases |actions|
  {
    actions == [] || (Allowed(w, actions[0]) && Possible(Step(w, actions[0]), actions[1..]))
  }

  function After(w: World, actions: seq<Action>): World
    requires Possible(w, actions)
    decreases |actions|
  {
    if actions == [] then w else After(Step(w, actions[0]), actions[1..])
  }

  predicate IsOldAnswer(a: Action, n: nat) {
    a.Respond? && a.ticket < n
  }

  /** The same actions without the answers to the first n requests. */
  function WithoutOld(actions: seq<Action>, n: nat): seq<Action> {
    if actions == [] then []
    else (if IsOldAnswer(actions[0], n) then [] else [actions[0]]) + WithoutOld(actions[1..], n)
  }

  lemma OldAnswerIsInert(w: World, a: Action, n: nat)
    requires n <= |w.issued| && Allowed(w, a) && IsOldAnswer(a, n)
    requires forall i :: 0 <= i < n ==> Stale(w.store, w.issued[i])
    ensures Step(w, a) == w
  {
    StaleIsInert(w.store, w.issued[a.ticket], a.answer);
  }

  lemma StepKeepsStale(w: World, a: Action, n: nat)
    requires n <= |w.issued| && Allowed(w, a)
    requires forall i :: 0 <= i < n ==> Stale(w.store, w.issued[i])
    ensures forall i :: 0 <= i < n ==> Stale(Step(w, a).store, Step(w, a).issued[i])
  {
    StepIsLater(w, a);
    forall i | 0 <= i < n ensures Stale(Step(w, a).store, Step(w, a).issued[i]) {
      StaleStays(w.store, Step(w, a).store, w.issued[i]);
    }
  }

  lemma {:induction false} OldAnswersVanish(w: World, actions: seq<Action>, n: nat)
    requires n <= |w.issued| && Possible(w, actions)
    requires forall i :: 0 <= i < n ==> Stale(w.store, w.issued[i])
    ensures Possible(w, WithoutOld(actions, n)) && After(w, WithoutOld(actions, n)) == After(w, actions)
    decreases |actions|
  {
    if actions != [] {
      var a, rest := actions[0], actions[1..];
      StepKeepsStale(w, a, n);
      OldAnswersVanish(Step(w, a), rest, n);
      if IsOldAnswer(a, n) {
        OldAnswerIsInert(w, a, n);
        assert WithoutOld(actions, n) == WithoutOld(rest, n);
      } else {
        assert ([a] + WithoutOld(rest, n))[1..] == WithoutOld(rest, n);
      }
    }
  }

  /**
   Sessions do not interfere: after the store was emptied for a change of user, the
   rest of any run ends exactly where it ends without the answers to the requests of
   before, however many there are and however they mix with the new session's own.
   */
  lemma {:induction false} SessionsDoNotInterfere(w: World, admin: bool, actions: seq<Action>)
    requires AllKnown(w) && Possible(Step(w, ChangeUser(admin)), actions)
    ensures var start := Step(w, ChangeUser(admin));
            Possible(start, WithoutOld(actions, |w.issued|)) &&
            After(start, WithoutOld(actions, |w.issued|)) == After(start, actions)
  {
    var start := Step(w, ChangeUser(admin));
    forall i | 0 <= i < |w.issued| ensures Stale(start.store, start.issued[i]) {
      ResetMakesStale(w.store.(admin := admin), w.issued[i]);
    }
    OldAnswersVanish(start, actions, |w.issued|);
  }

  lemma {:induction false} RunKeepsKnown(w: World, actions: seq<Action>)
    requires AllKnown(w) && Possible(w, actions)
    ensures AllKnown(After(w, actions))
    decreases |actions|
  {
    if actions != [] {
      StepKeepsKnown(w, actions[0]);
      RunKeepsKnown(Step(w, actions[0]), actions[1..]);
    }
  }

  const START := World(EMPTY_STORE, [])

  /** In particular after any run from the empty store. */
  lemma {:induction false} SessionsFromStart(before: seq<Action>, admin: bool, actions: seq<Action>)
    requires Possible(START, before) && Possible(Step(After(START, before), ChangeUser(admin)), actions)
    ensures var w := After(START, before);
            var start := Step(w, ChangeUser(admin));
            Possible(start, WithoutOld(actions, |w.issued|)) &&
            After(start, WithoutOld(actions, |w.issued|)) == After(start, actions)
  {
    RunKeepsKnown(START, before);
    SessionsDoNotInterfere(After(START, before), admin, actions);
  }

  // ------------------------------------------------------------ deleted tasks

  predicate Gone(tasks: seq<Task>, id: TaskId) {
    forall i :: 0 <= i < |tasks| ==> tasks[i].id != id
  }

  predicate AtMostOnce(tasks: seq<Task>, id: TaskId) {
    forall i, j :: 0 <= i < j < |tasks| ==> tasks[i].id != id || tasks[j].id != id
  }

  /** Only the first entry is taken out, so the task is gone exactly if it was there at most once. */
  lemma DeletingRemoves(s: Store, id: TaskId)
    ensures Gone(s.Deleted(s.generation, id).tasks, id) <==> AtMostOnce(s.tasks, id)
  {
    var i := IndexOf(s.tasks, id);
    if i < |s.tasks| {
      var left := s.tasks[..i] + s.tasks[i + 1..];
      assert forall j :: i < j < |s.tasks| ==> left[j - 1] == s.tasks[j];
      assert forall j :: i <= j < |left| ==> left[j] == s.tasks[j + 1];
    }
  }

  predicate Distinct(tasks: seq<Task>) {
    forall i, j :: 0 <= i < j < |tasks| ==> tasks[i].id != tasks[j].id
  }

  lemma UpsertKeepsDistinct(s: Store, task: Task)
    requires Distinct(s.tasks)
    ensures Distinct(s.Upserted(task).tasks)
  {
  }

  lemma DeletingKeepsDistinct(s: Store, asked: nat, id: TaskId)
    requires Distinct(s.tasks)
    ensures Distinct(s.Deleted(asked, id).tasks)
  {
  }

  lemma AnswerKeepsDistinct(s: Store, t: Ticket, answer: Answer)
    requires Answers(t, answer) && Distinct(s.tasks) && (answer.Listing? ==> Distinct(answer.tasks))
    ensures Distinct(s.Answered(t, answer).tasks)
  {
    match t {
      case ListTicket(_, _) =>
      case DetailTicket(_, _, _) =>
        if answer.Detail? && answer.task.Some? { UpsertKeepsDistinct(s, answer.task.value); }
      case CancelTicket(_, _) =>
      case DeleteTicket(asked, id) => DeletingKeepsDistinct(s, asked, id);
      case RegisterTicket(_) => UpsertKeepsDistinct(s, answer.queued);
    }
  }

  /** While the server's lists name a task once, so does the store, after any step. */
  lemma StepKeepsDistinct(w: World, a: Action)
    requires Allowed(w, a) && Distinct(w.store.tasks) && (a.Respond? && a.answer.Listing? ==> Distinct(a.answer.tasks))
    ensures Distinct(Step(w, a).store.tasks)
  {
    if a.Respond? {
      AnswerKeepsDistinct(w.store, w.issued[a.ticket], a.answer);
    }
  }

  /** The store will not take the task from an answer for this ticket. */
  predicate Refuses(s: Store, t: Ticket, id: TaskId) {
    match t
    case ListTicket(_, seen) => seen < s.revision
    case DetailTicket(asked, token, _) =>
      asked == id ==> token < s.nextToken && (id in s.details ==> s.details[id] != token)
    case _ => true
  }

  /** The answer names the task. */
  predicate Names(answer: Answer, id: TaskId) {
    match answer
    case Listing(_, tasks) => !Gone(tasks, id)
    case Detail(task) => task.Some? && task.value.id == id
    case Submitted(task) => task.id == id
    case _ => false
  }

  /** A registration of the task, or an answer with it to a request later than the first n. */
  predicate BringsBack(a: Action, id: TaskId, n: nat) {
    a.Respond? && Names(a.answer, id) && (a.ticket >= n || a.answer.Submitted?)
  }

  lemma ListAnswerStaysGone(s: Store, requestId: nat, seen: nat, answer: Answer, id: TaskId)
    requires (answer.Listing? || answer.Failed?) && Gone(s.tasks, id) && (seen < s.revision || !Names(answer, id))
    ensures Gone(s.ListAnswered(requestId, seen, answer).tasks, id)
  {
  }

  lemma UpsertStaysGone(s: Store, task: Task, id: TaskId)
    requires Gone(s.tasks, id) && task.id != id
    ensures Gone(s.Upserted(task).tasks, id)
  {
  }

  lemma AnswerStaysGone(s: Store, t: Ticket, answer: Answer, id: TaskId)
    requires Answers(t, answer) && Gone(s.tasks, id)
    requires !Names(answer, id) || (Refuses(s, t, id) && !answer.Submitted?)
    ensures Gone(s.Answered(t, answer).tasks, id)
  {
    match t {
      case ListTicket(requestId, seen) => ListAnswerStaysGone(s, requestId, seen, answer, id);
      case DetailTicket(asked, _, _) =>
        if answer.Detail? && answer.task.Some? && asked != id {
          UpsertStaysGone(s, answer.task.value, id);
        }
      case RegisterTicket(_) => UpsertStaysGone(s, answer.queued, id);
      case _ =>
    }
  }

  lemma RefusesStays(s: Store, after: Store, t: Ticket, id: TaskId)
    requires Later(s, after) && Refuses(s, t, id)
    ensures Refuses(after, t, id)
  {
  }

  predicate AllRefuse(w: World, n: nat, id: TaskId)
    requires n <= |w.issued|
  {
    forall i :: 0 <= i < n ==> Refuses(w.store, w.issued[i], id)
  }

  lemma StepStaysGone(w: World, a: Action, n: nat, id: TaskId)
    requires n <= |w.issued| && Allowed(w, a) && Gone(w.store.tasks, id) && AllRefuse(w, n, id) && !BringsBack(a, id, n)
    ensures Gone(Step(w, a).store.tasks, id) && AllRefuse(Step(w, a), n, id)
  {
    StepIsLater(w, a);
    forall i | 0 <= i < n ensures Refuses(Step(w, a).store, Step(w, a).issued[i], id) {
      RefusesStays(w.store, Step(w, a).store, w.issued[i], id);
    }
    if a.Respond? {
      AnswerStaysGone(w.store, w.issued[a.ticket], a.answer, id);
    }
  }

  lemma {:induction false} RunStaysGone(w: World, actions: seq<Action>, n: nat, id: TaskId)
    requires n <= |w.issued| && Possible(w, actions) && Gone(w.store.tasks, id) && AllRefuse(w, n, id)
    requires forall i :: 0 <= i < |actions| ==> !BringsBack(actions[i], id, n)
    ensures Gone(After(w, actions).store.tasks, id)
    decreases |actions|
  {
    if actions != [] {
      StepStaysGone(w, actions[0], n, id);
      RunStaysGone(Step(w, actions[0]), actions[1..], n, id);
    }
  }

  lemma DeletionRefuses(s: Store, t: Ticket, id: TaskId)
    requires Known(s, t)
    ensures Refuses(s.Deleted(s.generation, id), t, id)
  {
  }

  /**
   Once a deletion has counted, no answer to any request sent before it puts the
   task back, in any run: only a new registration, or an answer naming the task to
   a request sent afterwards, can.
   */
  lemma {:induction false} DeletedStaysGone(w: World, i: nat, id: TaskId, actions: seq<Action>)
    requires AllKnown(w) && i < |w.issued| && w.issued[i] == DeleteTicket(w.store.generation, id)
    requires AtMostOnce(w.store.tasks, id)
    requires Possible(Step(w, Respond(i, Done)), actions)
    requires forall k :: 0 <= k < |actions| ==> !BringsBack(actions[k], id, |w.issued|)
    ensures Gone(After(Step(w, Respond(i, Done)), actions).store.tasks, id)
  {
    var start := Step(w, Respond(i, Done));
    DeletingRemoves(w.store, id);
    forall k | 0 <= k < |w.issued| ensures Refuses(start.store, start.issued[k], id) {
      DeletionRefuses(w.store, w.issued[k], id);
    }
    RunStaysGone(start, actions, |w.issued|, id);
  }

  /** The server's lists name no task twice. */
  predicate ListsDistinct(actions: seq<Action>) {
    forall k :: 0 <= k < |actions| && actions[k].Respond? && actions[k].answer.Listing? ==>
      Distinct(actions[k].answer.tasks)
  }

  lemma {:induction false} RunKeepsDistinct(w: World, actions: seq<Action>)
    requires Possible(w, actions) && Distinct(w.store.tasks) && ListsDistinct(actions)
    ensures Distinct(After(w, actions).store.tasks)
    decreases |actions|
  {
    if actions != [] {
      StepKeepsDistinct(w, actions[0]);
      RunKeepsDistinct(Step(w, actions[0]), actions[1..]);
    }
  }

  /** In particular after any run from the empty store against a server whose lists name no task twice. */
  lemma {:induction false} DeletedStaysGoneFromStart(before: seq<Action>, i: nat, id: TaskId, actions: seq<Action>)
    requires Possible(START, before) && ListsDistinct(before)
    requires var w := After(START, before);
             && i < |w.issued| && w.issued[i] == DeleteTicket(w.store.generation, id)
             && Possible(Step(w, Respond(i, Done)), actions)
             && forall k :: 0 <= k < |actions| ==> !BringsBack(actions[k], id, |w.issued|)
    ensures Gone(After(Step(After(START, before), Respond(i, Done)), actions).store.tasks, id)
  {
    RunKeepsKnown(START, before);
    RunKeepsDistinct(START, before);
    DeletedStaysGone(After(START, before), i, id, actions);
  }
}
