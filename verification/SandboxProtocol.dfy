/**
 The request handlers and workers of the sandbox provisioner as a transition
 system. Every thread carries a program counter; one step is one lock-held
 region of one thread, so any interleaving of the handlers is a run.
 */
module SandboxProtocol {
  import opened Prelude
  import opened SandboxState

  /** On whose behalf a delete runs; the reaper carries the rest of its sweep and its cutoff. */
  datatype Owner = Request | Worker(quiescer: Thread) | Reaper(rest: seq<Expired>, cutoff: int)

  datatype Erasure = Erased | Mismatch | Broken | Skipped

  datatype Outcome = Done | Refused | Failed | WorkerDone | WorkerFailed(id: SandboxId) | Cancelled(id: SandboxId)
                   | Swept(rounds: nat) | SweepFailed

  datatype Pc =
      // create_sandbox
    | CreateEnter(id: SandboxId, workdir: Option<string>)
    | CreateAcquire(id: SandboxId, workdir: Option<string>)
    | CreateRun(id: SandboxId, workdir: Option<string>)
    | CreateRelease(id: SandboxId, made: Option<Generation>)
    | CreateLeave(id: SandboxId, made: Option<Generation>)
    | CreateTouch(id: SandboxId, generation: Generation)
      // get_sandbox, touch_sandbox and proxy_sandbox_request
    | VisitAcquire(id: SandboxId, proxy: bool)
    | VisitDiscover(id: SandboxId, proxy: bool)
    | VisitTouch(id: SandboxId, generation: Generation, proxy: bool)
    | VisitRelease(id: SandboxId, ok: bool)
      // delete_sandbox, a quiescence worker, or one deletion of the reaper
    | DeleteBegin(who: Owner, id: SandboxId, fence: Option<Generation>)
    | DeleteDrain(who: Owner, id: SandboxId, fence: Option<Generation>)
    | ReapClock(who: Owner, id: SandboxId, fence: Option<Generation>)
    | ReapCheck(who: Owner, id: SandboxId, fence: Option<Generation>)
    | DeleteErase(who: Owner, id: SandboxId, fence: Option<Generation>)
    | ReapForget(who: Owner, id: SandboxId, fence: Option<Generation>)
    | DeleteEnd(who: Owner, id: SandboxId, fence: Option<Generation>, result: Erasure)
    | DeleteForget(who: Owner, id: SandboxId, fence: Option<Generation>)
      // quiesce_sandboxes; rounds counts the listings made so far
    | QuiesceBegin
    | QuiesceDrain
    | QuiesceList(rounds: nat)
    | QuiesceJoin(rounds: nat, workers: set<Thread>)
      // the reaper between deletions
    | ReapScan(queue: seq<Expired>)
    | Finished(outcome: Outcome)

  datatype Memory = Memory(
    pins: Pins,
    gate: Gate,
    records: Inventory,
    issued: set<Generation>,   // every token ever stored, for freshness
    activity: Activity,
    now: int,
    idle: int)

  datatype State = State(mem: Memory, procs: map<Thread, Pc>)

  /** What one step of one thread does: the shared memory, its own next counter, threads it starts. */
  datatype Effect = Effect(mem: Memory, next: Pc, spawned: map<Thread, Pc>)

  /** What the environment decides: failures, timeouts, tokens, thread names, listing order. */
  datatype Choice = Choice(fails: bool, expired: bool, token: Generation, workers: map<Thread, SandboxId>,
                           queue: seq<Expired>)

  function AfterDrain(who: Owner, id: SandboxId, fence: Option<Generation>): Pc {
    if who.Reaper? then ReapClock(who, id, fence) else DeleteErase(who, id, fence)
  }

  function AfterEnd(who: Owner, id: SandboxId, fence: Option<Generation>, result: Erasure): Pc {
    match who
    case Reaper(rest, _) => ReapScan(rest)
    case Request => if result.Erased? then DeleteForget(who, id, fence) else Finished(Failed)
    case Worker(_) =>
      if result.Erased? then DeleteForget(who, id, fence)
      else if result.Mismatch? then Finished(WorkerDone)
      else Finished(WorkerFailed(id))
  }

  function Goto(m: Memory, next: Pc): Effect {
    Effect(m, next, map[])
  }

  function MoveCreate(m: Memory, pc: Pc, t: Thread, c: Choice): Effect {
    match pc
    case CreateEnter(id, workdir) =>
      var gate := m.gate.AcquireCreate();
      if gate.None? then Goto(m, Finished(Refused)) else Goto(m.(gate := gate.value), CreateAcquire(id, workdir))
    case CreateAcquire(id, workdir) =>
      Goto(m.(pins := m.pins.Acquire(t, id)), if id in m.pins.deleting then pc else CreateRun(id, workdir))
    case CreateRun(id, workdir) =>
      var made := CreateRecord(m.records, id, workdir, c.token);
      if c.fails || made.None? then Goto(m, CreateRelease(id, None))
      else Goto(m.(records := m.records[id := made.value], issued := m.issued + {made.value.generation}),
                CreateRelease(id, Some(made.value.generation)))
    case CreateRelease(id, made) =>
      Goto(m.(pins := m.pins.Release(id)), CreateLeave(id, made))
    case CreateLeave(id, made) =>
      Goto(m.(gate := m.gate.ReleaseCreate()), if made.Some? then CreateTouch(id, made.value) else Finished(Failed))
    case CreateTouch(id, generation) =>
      Goto(m.(activity := Touch(m.activity, id, Some(generation), m.now)), Finished(Done))
    case _ => Goto(m, pc)
  }

  function MoveVisit(m: Memory, pc: Pc, t: Thread, c: Choice): Effect {
    match pc
    case VisitAcquire(id, proxy) =>
      Goto(m.(pins := m.pins.Acquire(t, id)), if id in m.pins.deleting then pc else VisitDiscover(id, proxy))
    case VisitDiscover(id, proxy) =>
      Goto(m, if c.fails || id !in m.records then VisitRelease(id, false)
              else VisitTouch(id, m.records[id].generation, proxy))
    case VisitTouch(id, generation, proxy) =>
      if proxy && c.fails then Goto(m, VisitRelease(id, false))
      else Goto(m.(activity := Touch(m.activity, id, Some(generation), m.now)), VisitRelease(id, true))
    case VisitRelease(id, ok) =>
      Goto(m.(pins := m.pins.Release(id)), Finished(if ok then Done else Failed))
    case _ => Goto(m, pc)
  }

  function MoveDelete(m: Memory, pc: Pc, t: Thread, c: Choice): Effect {
    match pc
    case DeleteBegin(who, id, fence) =>
      if who.Worker? && c.fails then Goto(m, Finished(Cancelled(id)))
      else Goto(m.(pins := m.pins.Mark(id).Drain(t, id)),
                if m.pins.Count(id) > 0 then DeleteDrain(who, id, fence) else AfterDrain(who, id, fence))
    case DeleteDrain(who, id, fence) =>
      Goto(m.(pins := m.pins.Drain(t, id)), if m.pins.Count(id) > 0 then pc else AfterDrain(who, id, fence))
    case ReapClock(who, id, fence) =>
      Goto(m, if who.Reaper? then ReapCheck(who.(cutoff := m.now - m.idle), id, fence) else pc)
    case ReapCheck(who, id, fence) =>
      Goto(m, if who.Reaper? && IsExpired(m.activity, Expired(id, fence), who.cutoff) then DeleteErase(who, id, fence)
              else DeleteEnd(who, id, fence, Skipped))
    case DeleteErase(who, id, fence) =>
      if c.fails then Goto(m, DeleteEnd(who, id, fence, Broken))
      else if !FenceAllows(m.records, id, fence) then Goto(m, DeleteEnd(who, id, fence, Mismatch))
      else Goto(m.(records := m.records - {id}),
                if who.Reaper? then ReapForget(who, id, fence) else DeleteEnd(who, id, fence, Erased))
    case ReapForget(who, id, fence) =>
      Goto(m.(activity := Forget(m.activity, id, fence)), DeleteEnd(who, id, fence, Erased))
    case DeleteEnd(who, id, fence, result) =>
      Goto(m.(pins := m.pins.EndDelete(id)), AfterEnd(who, id, fence, result))
    case DeleteForget(who, id, fence) =>
      Goto(m.(activity := Forget(m.activity, id, fence)), Finished(if who.Worker? then WorkerDone else Done))
    case _ => Goto(m, pc)
  }

  /** The worker threads a listing is handed to, each fenced by the generation it listed. */
  function Spawned(m: Memory, t: Thread, workers: map<Thread, SandboxId>): map<Thread, Pc> {
    map w | w in workers ::
      DeleteBegin(Worker(t), workers[w],
                  if workers[w] in m.records then Some(m.records[workers[w]].generation) else None)
  }

  function MoveSweep(m: Memory, pc: Pc, t: Thread, c: Choice): Effect {
    match pc
    case QuiesceBegin =>
      Goto(m.(gate := m.gate.Start().Drain(t)), if m.gate.creates != 0 then QuiesceDrain else QuiesceList(0))
    case QuiesceDrain =>
      Goto(m.(gate := m.gate.Drain(t)), if m.gate.creates != 0 then QuiesceDrain else QuiesceList(0))
    case QuiesceList(rounds) =>
      if c.fails then Goto(m, Finished(SweepFailed))
      else if m.records == map[] then Goto(m, Finished(Swept(rounds + 1)))
      else Effect(m, QuiesceJoin(rounds + 1, c.workers.Keys), Spawned(m, t, c.workers))
    case QuiesceJoin(rounds, workers) =>
      Goto(m, if c.fails then Finished(SweepFailed) else QuiesceList(rounds))
    case ReapScan(queue) =>
      Goto(m, if queue == [] then ReapScan(c.queue)
              else DeleteBegin(Reaper(queue[1..], 0), queue[0].id, queue[0].generation))
    case _ => Goto(m, pc)
  }

  predicate CreatePc(pc: Pc) {
    pc.CreateEnter? || pc.CreateAcquire? || pc.CreateRun? || pc.CreateRelease? || pc.CreateLeave? || pc.CreateTouch?
  }

  predicate VisitPc(pc: Pc) {
    pc.VisitAcquire? || pc.VisitDiscover? || pc.VisitTouch? || pc.VisitRelease?
  }

  predicate DeletePc(pc: Pc) {
    pc.DeleteBegin? || pc.DeleteDrain? || pc.ReapClock? || pc.ReapCheck? || pc.DeleteErase? || pc.ReapForget? ||
    pc.DeleteEnd? || pc.DeleteForget?
  }

  predicate SweepPc(pc: Pc) {
    !CreatePc(pc) && !VisitPc(pc) && !DeletePc(pc)
  }

  function Move(m: Memory, pc: Pc, t: Thread, c: Choice): Effect {
    if CreatePc(pc) then MoveCreate(m, pc, t, c)
    else if VisitPc(pc) then MoveVisit(m, pc, t, c)
    else if DeletePc(pc) then MoveDelete(m, pc, t, c)
    else MoveSweep(m, pc, t, c)
  }

  function Run(s: State, t: Thread, c: Choice): State
    requires t in s.procs
  {
    var e := Move(s.mem, s.procs[t], t, c);
    State(e.mem, s.procs[t := e.next] + e.spawned)
  }

  ghost predicate WorkersFit(s: State, workers: map<Thread, SandboxId>) {
    && (forall w :: w in workers ==> w !in s.procs && workers[w] in s.mem.records)
    && (forall id :: id in s.mem.records ==> exists w :: w in workers && workers[w] == id)
    && (forall v, w :: v in workers && w in workers && workers[v] == workers[w] ==> v == w)
  }

  ghost predicate QueueFits(s: State, queue: seq<Expired>) {
    && (forall e :: e in queue <==> IsExpired(s.mem.activity, e, s.mem.now - s.mem.idle))
    && (forall i, j :: 0 <= i < j < |queue| ==> queue[i].id != queue[j].id)
  }

  /** The environment's choice is possible at this step of this thread. */
  ghost predicate Fits(s: State, pc: Pc, c: Choice) {
    match pc
    case CreateRun(_, _) => c.token != "" && c.token !in s.mem.issued
    case DeleteBegin(Worker(q), _, _) => c.fails ==> q in s.procs && s.procs[q] == Finished(SweepFailed)
    case QuiesceList(_) => !c.fails && s.mem.records != map[] ==> WorkersFit(s, c.workers)
    case QuiesceJoin(_, workers) =>
      if c.fails then c.expired || exists w :: w in workers && w in s.procs && Lost(s.procs[w])
      else forall w :: w in workers ==> w in s.procs && s.procs[w] == Finished(WorkerDone)
    case ReapScan(queue) => queue == [] ==> QueueFits(s, c.queue)
    case Finished(_) => false
    case _ => true
  }

  predicate Lost(pc: Pc) {
    pc.Finished? && pc.outcome.WorkerFailed?
  }

  ghost predicate Enabled(s: State, t: Thread, c: Choice) {
    t in s.procs && t !in s.mem.pins.asleep && t !in s.mem.gate.asleep && Fits(s, s.procs[t], c)
  }

  predicate Arrival(pc: Pc) {
    pc.CreateEnter? || pc.VisitAcquire? || (pc.DeleteBegin? && pc.who.Request?) || pc.QuiesceBegin?
  }

  datatype Action = Arrive(t: Thread, pc: Pc) | Step(t: Thread, c: Choice) | Tick(now: int)

  ghost predicate Possible(s: State, a: Action) {
    match a
    case Arrive(t, pc) => t !in s.procs && Arrival(pc)
    case Step(t, c) => Enabled(s, t, c)
    case Tick(now) => s.mem.now <= now
  }

  function Act(s: State, a: Action): State
    requires a.Step? ==> a.t in s.procs
  {
    match a
    case Arrive(t, pc) => s.(procs := s.procs[t := pc])
    case Step(t, c) => Run(s, t, c)
    case Tick(now) => s.(mem := s.mem.(now := now))
  }

  /** The provisioner at start-up: nothing stored, and the idle reaper's thread if it is enabled. */
  ghost predicate Init(s: State) {
    && s.mem.pins == NO_PINS && s.mem.gate == OPEN_GATE
    && s.mem.records == map[] && s.mem.issued == {} && s.mem.activity == map[]
    && s.procs == if s.mem.idle > 0 then map[0 := ReapScan([])] else map[]
  }

  /** A run: the trace of states that a sequence of possible actions produces. */
  ghost predicate Steps(trace: seq<State>, actions: seq<Action>) {
    && |trace| == |actions| + 1
    && forall i :: 0 <= i < |actions| ==> Possible(trace[i], actions[i]) && trace[i + 1] == Act(trace[i], actions[i])
  }

  ghost predicate Execution(trace: seq<State>, actions: seq<Action>) {
    Steps(trace, actions) && Init(trace[0])
  }
}
