/**
 What every step of the provisioner keeps, under any interleaving. Each part of
 the invariant is a predicate; its lemma first looks at the one thread that
 moves and then at the threads that stay.
 */
module SandboxInvariants {
  import opened Prelude
  import opened SandboxState
  import opened SandboxProtocol

  // ------------------------------------------------------------ counting threads

  datatype Role = Pinning(id: SandboxId) | Creating

  /** Between a successful acquire and its release; between acquire_create and release_create. */
  predicate Plays(pc: Pc, role: Role) {
    match role
    case Pinning(id) =>
      (pc.CreateRun? || pc.CreateRelease? || pc.VisitDiscover? || pc.VisitTouch? || pc.VisitRelease?) && pc.id == id
    case Creating => pc.CreateAcquire? || pc.CreateRun? || pc.CreateRelease? || pc.CreateLeave?
  }

  ghost function Players(procs: map<Thread, Pc>, role: Role): set<Thread> {
    set t | t in procs && Plays(procs[t], role)
  }

  function One(b: bool): int { if b then 1 else 0 }

  lemma PlayerIsCounted(procs: map<Thread, Pc>, t: Thread, role: Role)
    requires t in procs && Plays(procs[t], role)
    ensures |Players(procs, role)| > 0
  {
    assert t in Players(procs, role);
  }

  lemma SpawnedAreWorkers(m: Memory, pc: Pc, t: Thread, c: Choice)
    ensures forall w :: w in Move(m, pc, t, c).spawned ==>
              && pc.QuiesceList? && w in c.workers && !c.fails && m.records != map[]
              && Move(m, pc, t, c).spawned[w].DeleteBegin? && Move(m, pc, t, c).spawned[w].who == Worker(t)
  {
  }

  /** A step moves its own thread and may start workers; every other thread stays where it is. */
  lemma OthersKept(s: State, t: Thread, c: Choice)
    requires Enabled(s, t, c)
    ensures t in Run(s, t, c).procs && Run(s, t, c).procs[t] == Move(s.mem, s.procs[t], t, c).next
    ensures forall u :: u in s.procs ==> u in Run(s, t, c).procs
    ensures forall u :: u in s.procs && u != t ==> Run(s, t, c).procs[u] == s.procs[u]
    ensures forall u :: u in Run(s, t, c).procs && u !in s.procs ==>
              && s.procs[t].QuiesceList? && Run(s, t, c).procs[u].DeleteBegin?
              && Run(s, t, c).procs[u].who == Worker(t)
    ensures forall u :: u in Move(s.mem, s.procs[t], t, c).spawned ==> u !in s.procs
  {
    SpawnedAreWorkers(s.mem, s.procs[t], t, c);
  }

  /** What an effect of thread t makes of the system, without saying which move it was. */
  ghost predicate StepsTo(s: State, s': State, t: Thread, e: Effect) {
    && t in s.procs && s'.mem == e.mem && t in s'.procs && s'.procs[t] == e.next
    && (forall u :: u in s.procs ==> u in s'.procs && (u != t ==> s'.procs[u] == s.procs[u]))
    && (forall u :: u in s'.procs && u !in s.procs ==>
        u in e.spawned && s'.procs[u] == e.spawned[u] && s'.procs[u].DeleteBegin?)
  }

  lemma RunSteps(s: State, t: Thread, c: Choice)
    requires Enabled(s, t, c)
    ensures StepsTo(s, Run(s, t, c), t, Move(s.mem, s.procs[t], t, c))
  {
    OthersKept(s, t, c);
  }

  lemma SizeAfterMove(before: set<Thread>, after: set<Thread>, t: Thread)
    requires forall u :: u != t ==> (u in before <==> u in after)
    ensures |after| == |before| + One(t in after) - One(t in before)
  {
    var others := before - {t};
    assert others == after - {t};
    assert t in before ==> before == others + {t};
    assert t in after ==> after == others + {t};
  }

  lemma PlayersStep(s: State, t: Thread, c: Choice, role: Role)
    requires Enabled(s, t, c)
    ensures |Players(Run(s, t, c).procs, role)| ==
            |Players(s.procs, role)| +
              One(Plays(Move(s.mem, s.procs[t], t, c).next, role)) - One(Plays(s.procs[t], role))
  {
    OthersKept(s, t, c);
    var procs' := Run(s, t, c).procs;
    forall u | u != t ensures u in Players(s.procs, role) <==> u in Players(procs', role) {
      if u in procs' && u !in s.procs {
        assert !Plays(procs'[u], role);
      }
    }
    SizeAfterMove(Players(s.procs, role), Players(procs', role), t);
  }

  // ------------------------------------------------------------ the parts of the invariant

  /** The pin table counts the current holders of every id, and has no entry at zero. */
  ghost predicate PinsCount(s: State) {
    && (forall id :: s.mem.pins.Count(id) == |Players(s.procs, Pinning(id))|)
    && (forall id :: id in s.mem.pins.active ==> s.mem.pins.active[id] > 0)
  }

  ghost predicate GateCounts(s: State) {
    s.mem.gate.creates == |Players(s.procs, Creating)|
  }

  /** Past begin_delete's wait, up to and including end_delete; the backend delete runs here. */
  predicate Drained(pc: Pc, id: SandboxId) {
    (pc.ReapClock? || pc.ReapCheck? || pc.DeleteErase? || pc.ReapForget? || pc.DeleteEnd?) && pc.id == id
  }

  /** Between the mark set by begin_delete and end_delete. */
  predicate InFlight(pc: Pc, id: SandboxId) {
    Drained(pc, id) || (pc.DeleteDrain? && pc.id == id)
  }

  ghost predicate MarksOwned(s: State) {
    forall id :: id in s.mem.pins.deleting ==> exists t :: t in s.procs && InFlight(s.procs[t], id)
  }

  /** The condition a thread parked on the pins waits to see changed. */
  predicate MustWait(m: Memory, pc: Pc) {
    match pc
    case CreateAcquire(id, _) => id in m.pins.deleting
    case VisitAcquire(id, _) => id in m.pins.deleting
    case DeleteDrain(_, id, _) => m.pins.Count(id) > 0
    case _ => false
  }

  /** No wake-up is lost: a parked thread's condition still makes it wait. */
  ghost predicate NoLostWakeup(s: State) {
    && (forall t :: t in s.mem.pins.asleep ==> t in s.procs && MustWait(s.mem, s.procs[t]))
    && (forall t :: t in s.mem.gate.asleep ==> t in s.procs && s.procs[t].QuiesceDrain? && s.mem.gate.creates != 0)
  }

  /** A worker of this quiescer that was not cancelled before it began. */
  predicate WorkerPc(pc: Pc, quiescer: Thread) {
    || ((pc.DeleteBegin? || pc.DeleteDrain? || pc.DeleteErase? || pc.DeleteEnd? || pc.DeleteForget?) &&
        pc.who == Worker(quiescer))
    || (pc.Finished? && (pc.outcome.WorkerDone? || pc.outcome.WorkerFailed?))
  }

  predicate IsToken(g: Option<Generation>) {
    g.Some? && g.value != ""
  }

  predicate AllTokens(queue: seq<Expired>) {
    forall i :: 0 <= i < |queue| ==> IsToken(queue[i].generation)
  }

  /** Reaper steps belong to the reaper, and every fence of a worker or the reaper is a real token. */
  predicate WellFormed(pc: Pc) {
    && (pc.ReapClock? || pc.ReapCheck? || pc.ReapForget? ==> pc.who.Reaper?)
    && (DeletePc(pc) && !pc.who.Request? ==> IsToken(pc.fence))
    && (DeletePc(pc) && pc.who.Reaper? ==> AllTokens(pc.who.rest))
    && (pc.DeleteEnd? && pc.who.Worker? ==> !pc.result.Skipped?)
    && (pc.CreateTouch? || pc.VisitTouch? ==> pc.generation != "")
    && (pc.CreateRelease? || pc.CreateLeave? ==> pc.made != Some(""))
    && (pc.ReapScan? ==> AllTokens(pc.queue))
  }

  ghost predicate AllWellFormed(s: State) {
    forall t :: t in s.procs ==> WellFormed(s.procs[t])
  }

  /** Whom a quiescer waits for are its own workers. */
  ghost predicate WorkersKnown(s: State) {
    forall t, w :: t in s.procs && s.procs[t].QuiesceJoin? && w in s.procs[t].workers ==>
      w in s.procs && w != t && WorkerPc(s.procs[w], t)
  }

  ghost predicate Shapes(s: State) {
    AllWellFormed(s) && WorkersKnown(s)
  }

  /** Generations are unique, non-empty and remembered, also in the activity table. */
  ghost predicate TokensIssued(m: Memory) {
    && (forall id :: id in m.records ==> m.records[id].generation in m.issued && m.records[id].generation != "")
    && (forall id, id' ::
          id in m.records && id' in m.records && m.records[id].generation == m.records[id'].generation ==> id == id')
    && (forall id :: id in m.activity ==> IsToken(m.activity[id].generation))
  }

  ghost predicate Inv(s: State) {
    PinsCount(s) && GateCounts(s) && MarksOwned(s) && NoLostWakeup(s) && Shapes(s) && TokensIssued(s.mem)
  }

  // ------------------------------------------------------------ the thread that moves

  /** The count of an id follows the thread's own role, and no entry is left at zero. */
  predicate PinsFollow(m: Memory, pc: Pc, id: SandboxId, e: Effect) {
    && e.mem.pins.Count(id) == m.pins.Count(id) + One(Plays(e.next, Pinning(id))) - One(Plays(pc, Pinning(id)))
    && (id in e.mem.pins.active ==> e.mem.pins.active[id] > 0)
  }

  predicate PinFits(m: Memory, pc: Pc, id: SandboxId) {
    && (Plays(pc, Pinning(id)) ==> m.pins.Count(id) > 0)
    && (id in m.pins.active ==> m.pins.active[id] > 0)
  }

  lemma CreatePins(m: Memory, pc: Pc, t: Thread, c: Choice, id: SandboxId)
    requires CreatePc(pc) && PinFits(m, pc, id)
    ensures PinsFollow(m, pc, id, MoveCreate(m, pc, t, c))
  {
  }

  lemma VisitPins(m: Memory, pc: Pc, t: Thread, c: Choice, id: SandboxId)
    requires VisitPc(pc) && PinFits(m, pc, id)
    ensures PinsFollow(m, pc, id, MoveVisit(m, pc, t, c))
  {
  }

  lemma DeletePins(m: Memory, pc: Pc, t: Thread, c: Choice, id: SandboxId)
    requires DeletePc(pc) && PinFits(m, pc, id)
    ensures PinsFollow(m, pc, id, MoveDelete(m, pc, t, c))
  {
  }

  lemma SweepPins(m: Memory, pc: Pc, t: Thread, c: Choice, id: SandboxId)
    requires SweepPc(pc) && PinFits(m, pc, id)
    ensures PinsFollow(m, pc, id, MoveSweep(m, pc, t, c))
  {
  }

  lemma PinMove(m: Memory, pc: Pc, t: Thread, c: Choice, id: SandboxId)
    requires PinFits(m, pc, id)
    ensures PinsFollow(m, pc, id, Move(m, pc, t, c))
  {
    if CreatePc(pc) {
      CreatePins(m, pc, t, c, id);
    } else if VisitPc(pc) {
      VisitPins(m, pc, t, c, id);
    } else if DeletePc(pc) {
      DeletePins(m, pc, t, c, id);
    } else {
      SweepPins(m, pc, t, c, id);
    }
  }

  lemma GateMove(m: Memory, pc: Pc, t: Thread, c: Choice)
    ensures var e := Move(m, pc, t, c);
            e.mem.gate.creates == m.gate.creates + One(Plays(e.next, Creating)) - One(Plays(pc, Creating))
  {
  }

  /** A new mark belongs to this thread, and it does not leave a mark it still has in flight. */
  predicate MarksFollow(m: Memory, pc: Pc, id: SandboxId, e: Effect) {
    && (id in e.mem.pins.deleting && id !in m.pins.deleting ==> InFlight(e.next, id))
    && (id in e.mem.pins.deleting && InFlight(pc, id) ==> InFlight(e.next, id))
  }

  lemma CreateMarks(m: Memory, pc: Pc, t: Thread, c: Choice, id: SandboxId)
    requires CreatePc(pc)
    ensures MarksFollow(m, pc, id, MoveCreate(m, pc, t, c))
  {
  }

  lemma VisitMarks(m: Memory, pc: Pc, t: Thread, c: Choice, id: SandboxId)
    requires VisitPc(pc)
    ensures MarksFollow(m, pc, id, MoveVisit(m, pc, t, c))
  {
  }

  lemma DeleteMarks(m: Memory, pc: Pc, t: Thread, c: Choice, id: SandboxId)
    requires DeletePc(pc)
    ensures MarksFollow(m, pc, id, MoveDelete(m, pc, t, c))
  {
  }

  lemma SweepMarks(m: Memory, pc: Pc, t: Thread, c: Choice, id: SandboxId)
    requires SweepPc(pc)
    ensures MarksFollow(m, pc, id, MoveSweep(m, pc, t, c))
  {
  }

  lemma MarkMove(m: Memory, pc: Pc, t: Thread, c: Choice, id: SandboxId)
    ensures MarksFollow(m, pc, id, Move(m, pc, t, c))
  {
    if CreatePc(pc) {
      CreateMarks(m, pc, t, c, id);
    } else if VisitPc(pc) {
      VisitMarks(m, pc, t, c, id);
    } else if DeletePc(pc) {
      DeleteMarks(m, pc, t, c, id);
    } else {
      SweepMarks(m, pc, t, c, id);
    }
  }

  /** A change that could end some parked thread's wait wakes every parked thread. */
  ghost predicate Wakes(m: Memory, t: Thread, e: Effect) {
    && e.mem.pins.asleep <= m.pins.asleep + {t}
    && (e.mem.pins.asleep == {} || forall other :: MustWait(m, other) ==> MustWait(e.mem, other))
    && (t in e.mem.pins.asleep && t !in m.pins.asleep ==> MustWait(e.mem, e.next))
    && e.mem.gate.asleep <= m.gate.asleep + {t}
    && (e.mem.gate.asleep == {} || m.gate.creates == 0 || e.mem.gate.creates != 0)
    && (t in e.mem.gate.asleep && t !in m.gate.asleep ==> e.next.QuiesceDrain? && e.mem.gate.creates != 0)
  }

  lemma CreateWakes(m: Memory, pc: Pc, t: Thread, c: Choice)
    requires CreatePc(pc) && m.gate.creates >= 0
    ensures Wakes(m, t, MoveCreate(m, pc, t, c))
  {
  }

  lemma VisitWakes(m: Memory, pc: Pc, t: Thread, c: Choice)
    requires VisitPc(pc) && m.gate.creates >= 0
    ensures Wakes(m, t, MoveVisit(m, pc, t, c))
  {
  }

  lemma DeleteWakes(m: Memory, pc: Pc, t: Thread, c: Choice)
    requires DeletePc(pc) && m.gate.creates >= 0
    ensures Wakes(m, t, MoveDelete(m, pc, t, c))
  {
  }

  lemma SweepWakes(m: Memory, pc: Pc, t: Thread, c: Choice)
    requires SweepPc(pc) && m.gate.creates >= 0
    ensures Wakes(m, t, MoveSweep(m, pc, t, c))
  {
  }

  lemma WakeMove(m: Memory, pc: Pc, t: Thread, c: Choice)
    requires m.gate.creates >= 0
    ensures Wakes(m, t, Move(m, pc, t, c))
  {
    if CreatePc(pc) {
      CreateWakes(m, pc, t, c);
    } else if VisitPc(pc) {
      VisitWakes(m, pc, t, c);
    } else if DeletePc(pc) {
      DeleteWakes(m, pc, t, c);
    } else {
      SweepWakes(m, pc, t, c);
    }
  }

  ghost predicate SaneChoice(m: Memory, pc: Pc, c: Choice) {
    && (pc.CreateRun? ==> c.token != "" && c.token !in m.issued)
    && (pc.QuiesceList? && !c.fails && m.records != map[] ==> forall w :: w in c.workers ==> c.workers[w] in m.records)
    && (pc == ReapScan([]) ==> forall e :: e in c.queue ==> IsExpired(m.activity, e, m.now - m.idle))
  }

  lemma CreateTokens(m: Memory, pc: Pc, t: Thread, c: Choice)
    requires CreatePc(pc) && WellFormed(pc) && TokensIssued(m) && SaneChoice(m, pc, c)
    ensures TokensIssued(MoveCreate(m, pc, t, c).mem)
  {
  }

  lemma VisitTokens(m: Memory, pc: Pc, t: Thread, c: Choice)
    requires VisitPc(pc) && WellFormed(pc) && TokensIssued(m) && SaneChoice(m, pc, c)
    ensures TokensIssued(MoveVisit(m, pc, t, c).mem)
  {
  }

  lemma DeleteTokens(m: Memory, pc: Pc, t: Thread, c: Choice)
    requires DeletePc(pc) && WellFormed(pc) && TokensIssued(m) && SaneChoice(m, pc, c)
    ensures TokensIssued(MoveDelete(m, pc, t, c).mem)
  {
  }

  lemma SweepTokens(m: Memory, pc: Pc, t: Thread, c: Choice)
    requires SweepPc(pc) && WellFormed(pc) && TokensIssued(m) && SaneChoice(m, pc, c)
    ensures TokensIssued(MoveSweep(m, pc, t, c).mem)
  {
  }

  lemma TokensMove(m: Memory, pc: Pc, t: Thread, c: Choice)
    requires WellFormed(pc) && TokensIssued(m) && SaneChoice(m, pc, c)
    ensures TokensIssued(Move(m, pc, t, c).mem)
  {
    if CreatePc(pc) {
      CreateTokens(m, pc, t, c);
    } else if VisitPc(pc) {
      VisitTokens(m, pc, t, c);
    } else if DeletePc(pc) {
      DeleteTokens(m, pc, t, c);
    } else {
      SweepTokens(m, pc, t, c);
    }
  }

  lemma CreateShape(m: Memory, pc: Pc, t: Thread, c: Choice)
    requires WellFormed(pc) && CreatePc(pc) && TokensIssued(m) && SaneChoice(m, pc, c)
    ensures WellFormed(MoveCreate(m, pc, t, c).next)
  {
  }

  lemma VisitShape(m: Memory, pc: Pc, t: Thread, c: Choice)
    requires WellFormed(pc) && VisitPc(pc) && TokensIssued(m)
    ensures WellFormed(MoveVisit(m, pc, t, c).next)
  {
  }

  lemma DeleteShape(m: Memory, pc: Pc, t: Thread, c: Choice)
    requires WellFormed(pc) && DeletePc(pc)
    ensures WellFormed(MoveDelete(m, pc, t, c).next)
  {
    match pc
    case DeleteBegin(who, id, fence) =>
    case DeleteDrain(who, id, fence) =>
    case DeleteEnd(who, id, fence, result) =>
    case _ =>
  }

  lemma SpawnedShape(m: Memory, pc: Pc, t: Thread, c: Choice)
    requires TokensIssued(m) && SaneChoice(m, pc, c) && SweepPc(pc)
    ensures forall w :: w in MoveSweep(m, pc, t, c).spawned ==> WellFormed(MoveSweep(m, pc, t, c).spawned[w])
  {
  }

  lemma ScanShape(m: Memory, queue: seq<Expired>, t: Thread, c: Choice)
    requires WellFormed(ReapScan(queue)) && TokensIssued(m) && SaneChoice(m, ReapScan(queue), c)
    ensures WellFormed(MoveSweep(m, ReapScan(queue), t, c).next)
  {
    assert forall i :: 0 <= i < |c.queue| ==> c.queue[i] in c.queue;
  }

  lemma SweepShape(m: Memory, pc: Pc, t: Thread, c: Choice)
    requires WellFormed(pc) && TokensIssued(m) && SaneChoice(m, pc, c) && SweepPc(pc)
    ensures WellFormed(MoveSweep(m, pc, t, c).next)
    ensures forall w :: w in MoveSweep(m, pc, t, c).spawned ==> WellFormed(MoveSweep(m, pc, t, c).spawned[w])
  {
    SpawnedShape(m, pc, t, c);
    if pc.ReapScan? {
      ScanShape(m, pc.queue, t, c);
    }
  }

  lemma ShapeMove(m: Memory, pc: Pc, t: Thread, c: Choice)
    requires WellFormed(pc) && TokensIssued(m) && SaneChoice(m, pc, c)
    ensures WellFormed(Move(m, pc, t, c).next)
    ensures forall w :: w in Move(m, pc, t, c).spawned ==> WellFormed(Move(m, pc, t, c).spawned[w])
  {
    if CreatePc(pc) {
      CreateShape(m, pc, t, c);
    } else if VisitPc(pc) {
      VisitShape(m, pc, t, c);
    } else if DeletePc(pc) {
      DeleteShape(m, pc, t, c);
    } else {
      SweepShape(m, pc, t, c);
    }
  }

  lemma WorkerMove(m: Memory, pc: Pc, t: Thread, c: Choice)
    ensures var e := Move(m, pc, t, c);
            && (e.next.QuiesceJoin? ==> pc == e.next || (pc.QuiesceList? && e.next.workers == e.spawned.Keys))
            && (forall q :: WorkerPc(pc, q) && WellFormed(pc) && !(pc.DeleteBegin? && c.fails) ==> WorkerPc(e.next, q))
  {
    if DeletePc(pc) {
    }
  }

  // ------------------------------------------------------------ one step of the whole system

  lemma PinsCountStep(s: State, t: Thread, c: Choice)
    requires Enabled(s, t, c) && PinsCount(s)
    ensures PinsCount(Run(s, t, c))
  {
    var e := Move(s.mem, s.procs[t], t, c);
    forall id
      ensures e.mem.pins.Count(id) == |Players(Run(s, t, c).procs, Pinning(id))|
      ensures id in e.mem.pins.active ==> e.mem.pins.active[id] > 0
    {
      if Plays(s.procs[t], Pinning(id)) {
        PlayerIsCounted(s.procs, t, Pinning(id));
      }
      PlayersStep(s, t, c, Pinning(id));
      PinMove(s.mem, s.procs[t], t, c, id);
    }
  }

  lemma MarksOwnedStep(s: State, t: Thread, c: Choice)
    requires Enabled(s, t, c) && MarksOwned(s)
    ensures MarksOwned(Run(s, t, c))
  {
    var s' := Run(s, t, c);
    OthersKept(s, t, c);
    forall id | id in s'.mem.pins.deleting
      ensures exists u :: u in s'.procs && InFlight(s'.procs[u], id)
    {
      MarkMove(s.mem, s.procs[t], t, c, id);
      var u := t;
      if id in s.mem.pins.deleting {
        u :| u in s.procs && InFlight(s.procs[u], id);
      }
      assert u in s'.procs && InFlight(s'.procs[u], id);
    }
  }

  lemma NoLostWakeupStep(s: State, t: Thread, c: Choice)
    requires Enabled(s, t, c) && NoLostWakeup(s) && GateCounts(s)
    ensures NoLostWakeup(Run(s, t, c))
  {
    OthersKept(s, t, c);
    WakeMove(s.mem, s.procs[t], t, c);
  }

  lemma WellFormedStep(s: State, t: Thread, c: Choice)
    requires Enabled(s, t, c) && AllWellFormed(s) && TokensIssued(s.mem)
    ensures AllWellFormed(Run(s, t, c))
  {
    RunSteps(s, t, c);
    EnabledIsSane(s, t, c);
    ShapeMove(s.mem, s.procs[t], t, c);
  }

  lemma WorkersStep(s: State, t: Thread, c: Choice)
    requires Enabled(s, t, c) && AllWellFormed(s) && WorkersKnown(s)
    ensures WorkersKnown(Run(s, t, c))
  {
    var s' := Run(s, t, c);
    OthersKept(s, t, c);
    WorkerMove(s.mem, s.procs[t], t, c);
    SpawnedAreWorkers(s.mem, s.procs[t], t, c);
    forall q, w | q in s'.procs && s'.procs[q].QuiesceJoin? && w in s'.procs[q].workers
      ensures w in s'.procs && w != q && WorkerPc(s'.procs[w], q)
    {
      if q == t {
        assert w in Move(s.mem, s.procs[t], t, c).spawned;
      } else {
        assert q in s.procs && s.procs[q] == s'.procs[q];
        assert w == t && s.procs[t].DeleteBegin? ==> s.procs[t].who == Worker(q) && !c.fails;
      }
    }
  }

  lemma ShapesStep(s: State, t: Thread, c: Choice)
    requires Enabled(s, t, c) && Shapes(s) && TokensIssued(s.mem)
    ensures Shapes(Run(s, t, c)) && TokensIssued(Run(s, t, c).mem)
  {
    WellFormedStep(s, t, c);
    WorkersStep(s, t, c);
    EnabledIsSane(s, t, c);
    TokensMove(s.mem, s.procs[t], t, c);
  }

  /** A step that starts no threads only replaces its own program counter. */
  lemma RunInPlace(s: State, t: Thread, c: Choice)
    requires t in s.procs && !s.procs[t].QuiesceList?
    ensures Run(s, t, c) == State(Move(s.mem, s.procs[t], t, c).mem, s.procs[t := Move(s.mem, s.procs[t], t, c).next])
  {
    var e := Move(s.mem, s.procs[t], t, c);
    assert e.spawned == map[];
    assert s.procs[t := e.next] + e.spawned == s.procs[t := e.next];
  }

  lemma EnabledIsSane(s: State, t: Thread, c: Choice)
    requires Enabled(s, t, c)
    ensures SaneChoice(s.mem, s.procs[t], c)
  {
  }

  lemma StepKeepsInv(s: State, t: Thread, c: Choice)
    requires Enabled(s, t, c) && Inv(s)
    ensures Inv(Run(s, t, c))
  {
    PinsCountStep(s, t, c);
    PlayersStep(s, t, c, Creating);
    GateMove(s.mem, s.procs[t], t, c);
    MarksOwnedStep(s, t, c);
    NoLostWakeupStep(s, t, c);
    ShapesStep(s, t, c);
  }

  lemma ArrivalKeepsInv(s: State, t: Thread, pc: Pc)
    requires t !in s.procs && Arrival(pc) && Inv(s)
    ensures Inv(State(s.mem, s.procs[t := pc]))
  {
    var procs' := s.procs[t := pc];
    forall role ensures Players(procs', role) == Players(s.procs, role) {
      assert !Plays(pc, role);
    }
    forall id | id in s.mem.pins.deleting ensures exists u :: u in procs' && InFlight(procs'[u], id) {
      var u :| u in s.procs && InFlight(s.procs[u], id);
      assert u in procs' && InFlight(procs'[u], id);
    }
  }

  lemma ActKeepsInv(s: State, a: Action)
    requires Possible(s, a) && Inv(s)
    ensures Inv(Act(s, a))
  {
    match a
    case Arrive(t, pc) => ArrivalKeepsInv(s, t, pc);
    case Step(t, c) => StepKeepsInv(s, t, c);
    case Tick(now) =>
  }

  lemma InitInv(s: State)
    requires Init(s)
    ensures Inv(s)
  {
    forall role ensures Players(s.procs, role) == {} {
    }
  }

  /** Every state of every run satisfies the invariant. */
  lemma {:induction false} ExecutionInv(trace: seq<State>, actions: seq<Action>, i: nat)
    requires Execution(trace, actions) && i < |trace|
    ensures Inv(trace[i])
  {
    if i == 0 {
      InitInv(trace[0]);
    } else {
      ExecutionInv(trace, actions, i - 1);
      ActKeepsInv(trace[i - 1], actions[i - 1]);
    }
  }
}
