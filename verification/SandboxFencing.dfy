/**
 What deletes remove: only the generation they observed, and, for the idle
 reaper, only a sandbox whose last pinned use is still expired.
 */
module SandboxFencing {
  import opened Prelude
  import opened SandboxState
  import opened SandboxProtocol
  import opened SandboxInvariants
  import opened SandboxSafety

  // ------------------------------------------------------------ generations

  predicate Keeps(m: Memory, id: SandboxId, e: Effect)
    requires id in m.records
  {
    id in e.mem.records && e.mem.records[id] == m.records[id]
  }

  lemma CreateKeepsRecord(m: Memory, pc: Pc, t: Thread, c: Choice, id: SandboxId)
    requires CreatePc(pc) && id in m.records
    ensures Keeps(m, id, MoveCreate(m, pc, t, c))
  {
  }

  lemma OthersKeepRecord(m: Memory, pc: Pc, t: Thread, c: Choice, id: SandboxId)
    requires !DeletePc(pc) && id in m.records
    ensures Keeps(m, id, Move(m, pc, t, c))
  {
    if CreatePc(pc) {
      CreateKeepsRecord(m, pc, t, c, id);
    }
  }

  /**
   The erase step of a delete of the id that the backend carries out, its fence, if
   it has one, being the record's generation.
   */
  predicate Erases(m: Memory, pc: Pc, c: Choice, id: SandboxId)
    requires id in m.records
  {
    && pc.DeleteErase? && pc.id == id && !c.fails
    && (IsToken(pc.fence) ==> pc.fence == Some(m.records[id].generation))
  }

  lemma DeleteErases(m: Memory, pc: Pc, t: Thread, c: Choice, id: SandboxId)
    requires DeletePc(pc) && id in m.records
    ensures !Keeps(m, id, MoveDelete(m, pc, t, c)) <==> Erases(m, pc, c, id)
    ensures Erases(m, pc, c, id) ==> MoveDelete(m, pc, t, c).mem.records == m.records - {id}
  {
  }

  lemma RemovalMove(m: Memory, pc: Pc, t: Thread, c: Choice, id: SandboxId)
    requires id in m.records
    ensures !Keeps(m, id, Move(m, pc, t, c)) <==> Erases(m, pc, c, id)
    ensures Erases(m, pc, c, id) ==> Move(m, pc, t, c).mem.records == m.records - {id}
  {
    if DeletePc(pc) {
      DeleteErases(m, pc, t, c, id);
    } else {
      OthersKeepRecord(m, pc, t, c, id);
    }
  }

  /**
   A record leaves, or is replaced, exactly at the erase step of a delete of its id
   that does not fail and whose fence matches; workers and the reaper are always fenced.
   */
  lemma RemovalMatchesObservation(trace: seq<State>, actions: seq<Action>, i: nat, id: SandboxId)
    requires Execution(trace, actions) && i < |actions| && id in trace[i].mem.records
    ensures id in trace[i + 1].mem.records && trace[i + 1].mem.records[id] == trace[i].mem.records[id] <==>
            !(actions[i].Step? && actions[i].t in trace[i].procs &&
              Erases(trace[i].mem, trace[i].procs[actions[i].t], actions[i].c, id))
    ensures actions[i].Step? && actions[i].t in trace[i].procs && trace[i].procs[actions[i].t].DeleteErase? ==>
              var pc := trace[i].procs[actions[i].t];
              && (!pc.who.Request? ==> IsToken(pc.fence))
              && (pc.id == id && Erases(trace[i].mem, pc, actions[i].c, id) ==>
                    trace[i + 1].mem.records == trace[i].mem.records - {id})
  {
    ExecutionInv(trace, actions, i);
    assert Possible(trace[i], actions[i]) && trace[i + 1] == Act(trace[i], actions[i]);
    if actions[i].Step? {
      assert WellFormed(trace[i].procs[actions[i].t]);
      RemovalMove(trace[i].mem, trace[i].procs[actions[i].t], actions[i].t, actions[i].c, id);
    }
  }

  /** The generation was issued once and no record carries it now. */
  ghost predicate Gone(m: Memory, g: Generation) {
    g in m.issued && forall id :: id in m.records ==> m.records[id].generation != g
  }

  lemma CreateGone(m: Memory, pc: Pc, t: Thread, c: Choice, g: Generation)
    requires CreatePc(pc) && Gone(m, g) && SaneChoice(m, pc, c)
    ensures Gone(MoveCreate(m, pc, t, c).mem, g)
  {
  }

  lemma VisitGone(m: Memory, pc: Pc, t: Thread, c: Choice, g: Generation)
    requires VisitPc(pc) && Gone(m, g) && SaneChoice(m, pc, c)
    ensures Gone(MoveVisit(m, pc, t, c).mem, g)
  {
  }

  lemma DeleteGone(m: Memory, pc: Pc, t: Thread, c: Choice, g: Generation)
    requires DeletePc(pc) && Gone(m, g) && SaneChoice(m, pc, c)
    ensures Gone(MoveDelete(m, pc, t, c).mem, g)
  {
  }

  lemma SweepGone(m: Memory, pc: Pc, t: Thread, c: Choice, g: Generation)
    requires SweepPc(pc) && Gone(m, g) && SaneChoice(m, pc, c)
    ensures Gone(MoveSweep(m, pc, t, c).mem, g)
  {
  }

  lemma GoneMove(m: Memory, pc: Pc, t: Thread, c: Choice, g: Generation)
    requires Gone(m, g) && SaneChoice(m, pc, c)
    ensures Gone(Move(m, pc, t, c).mem, g)
  {
    if CreatePc(pc) {
      CreateGone(m, pc, t, c, g);
    } else if VisitPc(pc) {
      VisitGone(m, pc, t, c, g);
    } else if DeletePc(pc) {
      DeleteGone(m, pc, t, c, g);
    } else {
      SweepGone(m, pc, t, c, g);
    }
  }

  lemma GoneStep(s: State, a: Action, g: Generation)
    requires Possible(s, a) && Gone(s.mem, g)
    ensures Gone(Act(s, a).mem, g)
  {
    if a.Step? {
      EnabledIsSane(s, a.t, a.c);
      GoneMove(s.mem, s.procs[a.t], a.t, a.c, g);
    }
  }

  lemma {:induction false} GoneForever(trace: seq<State>, actions: seq<Action>, i: nat, j: nat, g: Generation)
    requires Execution(trace, actions) && i <= j < |trace| && Gone(trace[i].mem, g)
    ensures Gone(trace[j].mem, g)
    decreases j
  {
    if i < j {
      GoneForever(trace, actions, i, j - 1, g);
      GoneStep(trace[j - 1], actions[j - 1], g);
    }
  }

  /** A delete fenced by a generation that was already gone removes nothing, so a recreated sandbox survives it. */
  lemma StaleDeleteRemovesNothing(trace: seq<State>, actions: seq<Action>, i: nat, k: nat, g: Generation)
    requires Execution(trace, actions) && i <= k < |actions| && g != "" && Gone(trace[i].mem, g)
    requires actions[k].Step? && trace[k].procs[actions[k].t].DeleteErase?
    requires trace[k].procs[actions[k].t].fence == Some(g)
    ensures trace[k + 1].mem.records == trace[k].mem.records
  {
    GoneForever(trace, actions, i, k, g);
    var id := trace[k].procs[actions[k].t].id;
    assert id !in trace[k].mem.records ==> trace[k].mem.records - {id} == trace[k].mem.records;
  }

  // ------------------------------------------------------------ the reaper's window

  /**
   A refresh by a create, get, touch or proxy ends the expiry of its id for every cutoff
   before now, and of no other id.
   */
  lemma RefreshEndsExpiry(m: Memory, pc: Pc, t: Thread, c: Choice, e: Expired, cutoff: int)
    requires pc.CreateTouch? || (pc.VisitTouch? && !(pc.proxy && c.fails))
    requires cutoff < m.now
    ensures IsExpired(Move(m, pc, t, c).mem.activity, e, cutoff) <==> e.id != pc.id && IsExpired(m.activity, e, cutoff)
    ensures Move(m, pc, t, c).mem.activity[pc.id] == Seen(Some(pc.generation), m.now)
  {
  }

  /**
   Forgetting after a delete takes the entry of its id out exactly if the fence is absent
   or matches, and no other entry.
   */
  lemma ForgetSparesNewer(m: Memory, pc: Pc, t: Thread, c: Choice, id: SandboxId)
    requires (pc.ReapForget? || pc.DeleteForget?) && id in m.activity
    ensures var after := Move(m, pc, t, c).mem.activity;
            if id == pc.id && (pc.fence.None? || m.activity[id].generation == pc.fence) then id !in after
            else id in after && after[id] == m.activity[id]
  {
  }

  predicate TouchesActivity(pc: Pc, c: Choice) {
    || pc.CreateTouch? || pc.ReapForget? || pc.DeleteForget?
    || (pc.VisitTouch? && !(pc.proxy && c.fails))
  }

  lemma ActivityKept(m: Memory, pc: Pc, t: Thread, c: Choice)
    requires !TouchesActivity(pc, c)
    ensures Move(m, pc, t, c).mem.activity == m.activity
  {
  }

  lemma AbsentStaysForgotten(m: Memory, pc: Pc, t: Thread, c: Choice, id: SandboxId)
    requires (pc.ReapForget? || pc.DeleteForget?) && id !in m.activity
    ensures id !in Move(m, pc, t, c).mem.activity
  {
  }

  /**
   The two updates of the activity table made without a pin, where they end the idleness
   of an entry of the given generation.
   */
  predicate EndsIdle(pc: Pc, id: SandboxId, generation: Option<Generation>) {
    && (pc.CreateTouch? || (pc.DeleteForget? && (pc.fence.None? || pc.fence == generation)))
    && pc.id == id
  }

  /**
   A move by a thread without a pin on the id, and not of its reaper, ends an expiry
   exactly so; an ended one stays ended.
   */
  lemma ExpiryMove(m: Memory, pc: Pc, t: Thread, c: Choice, e: Expired, cutoff: int)
    requires cutoff < m.now && !Plays(pc, Pinning(e.id)) && !(pc.ReapForget? && pc.id == e.id)
    ensures IsExpired(Move(m, pc, t, c).mem.activity, e, cutoff) <==>
            IsExpired(m.activity, e, cutoff) && !EndsIdle(pc, e.id, e.generation)
  {
    if !TouchesActivity(pc, c) {
      ActivityKept(m, pc, t, c);
    } else if pc.CreateTouch? || pc.VisitTouch? {
      RefreshEndsExpiry(m, pc, t, c, e, cutoff);
    } else if e.id in m.activity {
      ForgetSparesNewer(m, pc, t, c, e.id);
    } else {
      AbsentStaysForgotten(m, pc, t, c, e.id);
    }
  }

  predicate OfReaper(pc: Pc) {
    pc.ReapScan? || (DeletePc(pc) && pc.who.Reaper?)
  }

  /** The reaper runs only with a timeout, and the cutoff it computes is before the present from then on. */
  predicate CutoffPast(m: Memory, pc: Pc) {
    && (OfReaper(pc) ==> m.idle > 0)
    && ((pc.ReapCheck? || pc.DeleteErase?) && pc.who.Reaper? ==> pc.who.cutoff < m.now)
  }

  ghost predicate CutoffsPast(s: State) {
    forall t :: t in s.procs ==> CutoffPast(s.mem, s.procs[t])
  }

  lemma DeleteCutoff(m: Memory, pc: Pc, t: Thread, c: Choice)
    requires DeletePc(pc) && CutoffPast(m, pc)
    ensures CutoffPast(m, MoveDelete(m, pc, t, c).next)
  {
  }

  lemma CutoffMove(m: Memory, pc: Pc, t: Thread, c: Choice)
    requires CutoffPast(m, pc)
    ensures CutoffPast(m, Move(m, pc, t, c).next)
  {
    if DeletePc(pc) {
      DeleteCutoff(m, pc, t, c);
    }
  }

  lemma ClockKept(m: Memory, pc: Pc, t: Thread, c: Choice)
    ensures Move(m, pc, t, c).mem.now == m.now && Move(m, pc, t, c).mem.idle == m.idle
  {
  }

  lemma SpawnedAreNotReapers(m: Memory, pc: Pc, t: Thread, c: Choice)
    ensures forall w :: w in Move(m, pc, t, c).spawned ==> !OfReaper(Move(m, pc, t, c).spawned[w])
  {
    SpawnedAreWorkers(m, pc, t, c);
  }

  lemma CutoffsPastStep(s: State, a: Action)
    requires Possible(s, a) && CutoffsPast(s)
    ensures CutoffsPast(Act(s, a))
  {
    if a.Step? {
      RunSteps(s, a.t, a.c);
      CutoffMove(s.mem, s.procs[a.t], a.t, a.c);
      ClockKept(s.mem, s.procs[a.t], a.t, a.c);
      SpawnedAreNotReapers(s.mem, s.procs[a.t], a.t, a.c);
    }
  }

  lemma {:induction false} CutoffsPastInRun(trace: seq<State>, actions: seq<Action>, i: nat)
    requires Execution(trace, actions) && i < |trace|
    ensures CutoffsPast(trace[i])
  {
    if i > 0 {
      CutoffsPastInRun(trace, actions, i - 1);
      CutoffsPastStep(trace[i - 1], actions[i - 1]);
    }
  }

  predicate AtErase(s: State, r: Thread) {
    r in s.procs && s.procs[r].DeleteErase? && s.procs[r].who.Reaper?
  }

  predicate StillIdle(m: Memory, pc: Pc)
    requires pc.DeleteErase? && pc.who.Reaper?
  {
    IsExpired(m.activity, Expired(pc.id, pc.fence), pc.who.cutoff)
  }

  /**
   Under the discipline, while the reaper stands between its re-check and its erase
   nobody holds a pin on the sandbox, so no get, touch or proxy refreshes it.
   */
  lemma PinnedRefreshCannotLand(trace: seq<State>, actions: seq<Action>, k: nat, r: Thread)
    requires Execution(trace, actions) && k < |trace| && AtErase(trace[k], r)
    requires forall i :: 0 <= i < k ==> OneDeleterPerId(trace[i])
    ensures forall u :: u in trace[k].procs ==> !Plays(trace[k].procs[u], Pinning(trace[k].procs[r].id))
    ensures k < |actions| && actions[k].Step? && trace[k].procs[actions[k].t].VisitTouch? ==>
            trace[k].procs[actions[k].t].id != trace[k].procs[r].id
  {
    DeleteExcludesPins(trace, actions, k);
    var id := trace[k].procs[r].id;
    assert Drained(trace[k].procs[r], id);
    if k < |actions| && actions[k].Step? && trace[k].procs[actions[k].t].VisitTouch? {
      assert Possible(trace[k], actions[k]);
      assert !Plays(trace[k].procs[actions[k].t], Pinning(id));
    }
  }

  /** From state k to state j thread r stands at the same place. */
  predicate Stays(trace: seq<State>, k: nat, j: nat, r: Thread)
    requires j < |trace| && r in trace[j].procs
  {
    forall l :: k <= l <= j ==> r in trace[l].procs && trace[l].procs[r] == trace[j].procs[r]
  }

  lemma StaysMore(trace: seq<State>, k: nat, h: nat, j: nat, r: Thread)
    requires k <= h < j == h + 1 < |trace| && r in trace[h].procs && r in trace[j].procs
    requires trace[h].procs[r] == trace[j].procs[r]
    ensures Stays(trace, k, h, r) <==> Stays(trace, k, j, r)
  {
  }

  /** This step ends the idleness of what pc is about to erase. */
  predicate EndsHere(s: State, a: Action, pc: Pc)
    requires pc.DeleteErase?
  {
    a.Step? && a.t in s.procs && EndsIdle(s.procs[a.t], pc.id, pc.fence)
  }

  /**
   While the reaper stood before its erase, an unpinned update that ends the idleness of
   its sandbox ran at step k.
   */
  predicate EndedAt(trace: seq<State>, actions: seq<Action>, k: nat, j: nat, r: Thread)
    requires j < |trace| == |actions| + 1 && AtErase(trace[j], r)
  {
    k < j && EndsHere(trace[k], actions[k], trace[j].procs[r]) && Stays(trace, k, j, r)
  }

  lemma ReapCheckFindsExpired(m: Memory, pc: Pc, t: Thread, c: Choice)
    requires WellFormed(pc) && !pc.Finished?
    requires var next := Move(m, pc, t, c).next; next.DeleteErase? && next.who.Reaper?
    ensures pc.ReapCheck? && Move(m, pc, t, c).mem == m && StillIdle(m, Move(m, pc, t, c).next)
  {
  }

  /** A step of another thread while the reaper stands before its erase. */
  lemma OtherStepExpiry(s: State, t: Thread, c: Choice, r: Thread)
    requires Enabled(s, t, c) && t != r && AtErase(s, r) && OneDeleterPerId(s) && Exclusive(s) && CutoffsPast(s)
    ensures var pc := s.procs[r];
            StillIdle(Move(s.mem, s.procs[t], t, c).mem, pc) <==>
            StillIdle(s.mem, pc) && !EndsIdle(s.procs[t], pc.id, pc.fence)
  {
    var pc := s.procs[r];
    assert Drained(pc, pc.id) && InFlight(pc, pc.id);
    assert !Plays(s.procs[t], Pinning(pc.id)) && !InFlight(s.procs[t], pc.id);
    assert CutoffPast(s.mem, pc);
    ExpiryMove(s.mem, s.procs[t], t, c, Expired(pc.id, pc.fence), pc.who.cutoff);
  }

  /** The reaper reaches its erase with an idle entry; then each step keeps it idle or ends it, as its mover says. */
  lemma WindowStep(s: State, a: Action, r: Thread)
    requires Possible(s, a) && Inv(s) && OneDeleterPerId(s) && Exclusive(s) && CutoffsPast(s) && AtErase(Act(s, a), r)
    ensures var pc := Act(s, a).procs[r];
            if r in s.procs && s.procs[r] == pc then
              StillIdle(Act(s, a).mem, pc) <==> StillIdle(s.mem, pc) && !EndsHere(s, a, pc)
            else StillIdle(Act(s, a).mem, pc)
  {
    if a.Step? {
      RunSteps(s, a.t, a.c);
      if a.t == r {
        ReapCheckFindsExpired(s.mem, s.procs[r], r, a.c);
      } else if r in s.procs {
        OtherStepExpiry(s, a.t, a.c, r);
      }
    }
  }

  ghost predicate EverEnded(trace: seq<State>, actions: seq<Action>, j: nat, r: Thread)
    requires j < |trace| == |actions| + 1 && AtErase(trace[j], r)
  {
    exists k: nat :: EndedAt(trace, actions, k, j, r)
  }

  lemma EndedEarlier(trace: seq<State>, actions: seq<Action>, h: nat, j: nat, r: Thread)
    requires |trace| == |actions| + 1 && h < j == h + 1 < |trace| && AtErase(trace[j], r)
    requires r in trace[h].procs && trace[h].procs[r] == trace[j].procs[r]
    ensures EverEnded(trace, actions, j, r) <==>
            EverEnded(trace, actions, h, r) || EndsHere(trace[h], actions[h], trace[j].procs[r])
  {
    forall k: nat | k <= h ensures Stays(trace, k, h, r) <==> Stays(trace, k, j, r) {
      StaysMore(trace, k, h, j, r);
    }
    if EverEnded(trace, actions, j, r) {
      var k: nat :| EndedAt(trace, actions, k, j, r);
      assert k < h ==> EndedAt(trace, actions, k, h, r);
    }
    if EverEnded(trace, actions, h, r) {
      var k: nat :| EndedAt(trace, actions, k, h, r);
      assert EndedAt(trace, actions, k, j, r);
    }
    if EndsHere(trace[h], actions[h], trace[j].procs[r]) {
      assert EndedAt(trace, actions, h, j, r);
    }
  }

  /**
   Under the discipline, a sandbox the reaper is about to erase is still as idle as
   its re-check found it exactly when no create has touched it since, and no delete
   has forgotten it, unfenced or fenced by the generation about to be erased.
   */
  lemma {:induction false} IdleUntilUnpinnedUpdate(trace: seq<State>, actions: seq<Action>, j: nat, r: Thread)
    requires Execution(trace, actions) && j < |trace| && AtErase(trace[j], r)
    requires forall k :: 0 <= k < j ==> OneDeleterPerId(trace[k])
    ensures StillIdle(trace[j].mem, trace[j].procs[r]) <==> !EverEnded(trace, actions, j, r)
    decreases j
  {
    assert j > 0;
    var h: nat := j - 1;
    assert Possible(trace[h], actions[h]) && trace[j] == Act(trace[h], actions[h]);
    ExecutionInv(trace, actions, h);
    DeleteExcludesPins(trace, actions, h);
    CutoffsPastInRun(trace, actions, h);
    WindowStep(trace[h], actions[h], r);
    if r in trace[h].procs && trace[h].procs[r] == trace[j].procs[r] {
      IdleUntilUnpinnedUpdate(trace, actions, h, r);
      EndedEarlier(trace, actions, h, j, r);
    }
  }

  /**
   What has ended its idleness does not save the sandbox: whenever the reaper stands
   before its erase it can take it, and the record goes if its generation is the one
   observed, however recently a create has touched it.
   */
  lemma RefreshedIsErased(trace: seq<State>, actions: seq<Action>, k: nat, j: nat, r: Thread, c: Choice)
    requires Execution(trace, actions) && j < |trace| && AtErase(trace[j], r)
    requires (forall i :: 0 <= i < j ==> OneDeleterPerId(trace[i])) && EndedAt(trace, actions, k, j, r) && !c.fails
    ensures var pc := trace[j].procs[r];
            && !StillIdle(trace[j].mem, pc) && Enabled(trace[j], r, c)
            && (pc.id in trace[j].mem.records && Some(trace[j].mem.records[pc.id].generation) == pc.fence ==>
                  Run(trace[j], r, c).mem.records == trace[j].mem.records - {pc.id})
  {
    IdleUntilUnpinnedUpdate(trace, actions, j, r);
    ExecutionInv(trace, actions, j);
  }

  // ------------------------------------------------------------ the window a create leaves open

  const QUIET := Choice(false, false, "g", map[], [])
  const RECORD_A := Record("g", None)
  const EXPIRED_A := Expired("a", Some("g"))

  /** One awake thread t, all others as in procs, steps from pc to next. */
  lemma Walk(s: State, procs: map<Thread, Pc>, t: Thread, c: Choice, m: Memory, pc: Pc, m': Memory, next: Pc)
    requires Reaches(s, State(m, procs[t := pc]), 0) && t !in m.pins.asleep && t !in m.gate.asleep
    requires Fits(State(m, procs[t := pc]), pc, c) && !pc.QuiesceList?
    requires Move(m, pc, t, c) == Effect(m', next, map[])
    ensures Reaches(s, State(m', procs[t := next]), 0)
  {
    var s1 := State(m, procs[t := pc]);
    RunInPlace(s1, t, c);
    ReachesMore(s, s1, Step(t, c), 0);
    assert procs[t := pc][t := next] == procs[t := next];
  }

  predicate AtRest(m: Memory) {
    m.pins == NO_PINS && m.gate == OPEN_GATE &&
    ((m.records == map[] && m.issued == {}) || (m.records == map["a" := RECORD_A] && m.issued == {"g"}))
  }

  function Counted(m: Memory): Memory { m.(gate := Gate(false, 1, {})) }
  function Pinned(m: Memory): Memory { Counted(m).(pins := Pins(map["a" := 1], {}, {})) }
  function Stored(m: Memory): Memory { m.(records := map["a" := RECORD_A], issued := {"g"}) }

  lemma CreateMoves(m: Memory, t: Thread, c: Choice)
    requires AtRest(m) && !c.fails && (m.records == map[] ==> c.token == "g")
    ensures Move(m, CreateEnter("a", None), t, c) == Effect(Counted(m), CreateAcquire("a", None), map[])
    ensures Move(Counted(m), CreateAcquire("a", None), t, c) == Effect(Pinned(m), CreateRun("a", None), map[])
    ensures Move(Pinned(m), CreateRun("a", None), t, c) ==
            Effect(Stored(Pinned(m)), CreateRelease("a", Some("g")), map[])
    ensures Move(Stored(Pinned(m)), CreateRelease("a", Some("g")), t, c) ==
            Effect(Stored(Counted(m)), CreateLeave("a", Some("g")), map[])
    ensures Move(Stored(Counted(m)), CreateLeave("a", Some("g")), t, c) ==
            Effect(Stored(m), CreateTouch("a", "g"), map[])
  {
    assert map["a" := 1] - {"a"} == map[];
  }

  /** create_sandbox("a") up to the touch it makes after releasing its pin and the gate. */
  lemma CreateUpToTouch(s: State, m: Memory, procs: map<Thread, Pc>, t: Thread)
    requires Reaches(s, State(m, procs), 0) && t !in procs && AtRest(m)
    ensures Reaches(s, State(Stored(m), procs[t := CreateTouch("a", "g")]), 0)
  {
    var c := if m.records == map[] then QUIET else QUIET.(token := "h");
    CreateMoves(m, t, c);
    ReachesMore(s, State(m, procs), Arrive(t, CreateEnter("a", None)), 0);
    Walk(s, procs, t, c, m, CreateEnter("a", None), Counted(m), CreateAcquire("a", None));
    Walk(s, procs, t, c, Counted(m), CreateAcquire("a", None), Pinned(m), CreateRun("a", None));
    Walk(s, procs, t, c, Pinned(m), CreateRun("a", None), Stored(Pinned(m)), CreateRelease("a", Some("g")));
    Walk(s, procs, t, c, Stored(Pinned(m)), CreateRelease("a", Some("g")), Stored(Counted(m)),
         CreateLeave("a", Some("g")));
    Walk(s, procs, t, c, Stored(Counted(m)), CreateLeave("a", Some("g")), Stored(m), CreateTouch("a", "g"));
  }

  predicate Idle100(m: Memory) {
    && m.pins == NO_PINS && m.gate == OPEN_GATE && m.records == map["a" := RECORD_A]
    && m.activity == map["a" := Seen(Some("g"), 0)] && m.now == 100 && m.idle == 10
  }

  function Marked(m: Memory): Memory { m.(pins := Pins(map[], {"a"}, {})) }

  lemma ReapMoves(m: Memory)
    requires Idle100(m)
    ensures var c := QUIET.(queue := [EXPIRED_A]);
            && Move(m, ReapScan([]), 0, c) == Effect(m, ReapScan([EXPIRED_A]), map[])
            && Move(m, ReapScan([EXPIRED_A]), 0, c) == Effect(m, DeleteBegin(Reaper([], 0), "a", Some("g")), map[])
            && Move(m, DeleteBegin(Reaper([], 0), "a", Some("g")), 0, c) ==
               Effect(Marked(m), ReapClock(Reaper([], 0), "a", Some("g")), map[])
            && Move(Marked(m), ReapClock(Reaper([], 0), "a", Some("g")), 0, c) ==
               Effect(Marked(m), ReapCheck(Reaper([], 90), "a", Some("g")), map[])
            && Move(Marked(m), ReapCheck(Reaper([], 90), "a", Some("g")), 0, c) ==
               Effect(Marked(m), DeleteErase(Reaper([], 90), "a", Some("g")), map[])
  {
    assert [EXPIRED_A][1..] == [];
  }

  /** The reaper from an empty queue to its erase of "a", idle since time 0 and looked at at time 100. */
  lemma ReapUpToErase(s: State, m: Memory, procs: map<Thread, Pc>)
    requires Reaches(s, State(m, procs[0 := ReapScan([])]), 0) && Idle100(m)
    ensures Reaches(s, State(Marked(m), procs[0 := DeleteErase(Reaper([], 90), "a", Some("g"))]), 0)
  {
    var c := QUIET.(queue := [EXPIRED_A]);
    ReapMoves(m);
    Walk(s, procs, 0, c, m, ReapScan([]), m, ReapScan([EXPIRED_A]));
    Walk(s, procs, 0, c, m, ReapScan([EXPIRED_A]), m, DeleteBegin(Reaper([], 0), "a", Some("g")));
    Walk(s, procs, 0, c, m, DeleteBegin(Reaper([], 0), "a", Some("g")), Marked(m),
         ReapClock(Reaper([], 0), "a", Some("g")));
    Walk(s, procs, 0, c, Marked(m), ReapClock(Reaper([], 0), "a", Some("g")), Marked(m),
         ReapCheck(Reaper([], 90), "a", Some("g")));
    Walk(s, procs, 0, c, Marked(m), ReapCheck(Reaper([], 90), "a", Some("g")), Marked(m),
         DeleteErase(Reaper([], 90), "a", Some("g")));
  }

  lemma TouchAndErase(m: Memory, t: Thread)
    requires Storing(m) && m.activity.Keys <= {"a"}
    ensures Move(m, CreateTouch("a", "g"), t, QUIET) ==
            Effect(m.(activity := map["a" := Seen(Some("g"), m.now)]), Finished(Done), map[])
    ensures Move(m, DeleteErase(Reaper([], 90), "a", Some("g")), t, QUIET).mem.records == map[]
  {
  }

  predicate Storing(m: Memory) {
    m.records == map["a" := RECORD_A] && m.issued == {"g"}
  }

  lemma FirstCreate(s: State) returns (m: Memory)
    requires Init(s) && s.mem.now == 0 && s.mem.idle == 10
    ensures Idle100(m) && Storing(m) && Reaches(s, State(m, map[0 := ReapScan([]), 1 := Finished(Done)]), 0)
  {
    ReachesSelf(s);
    CreateUpToTouch(s, s.mem, s.procs, 1);
    TouchAndErase(Stored(s.mem), 1);
    m := Stored(s.mem).(activity := map["a" := Seen(Some("g"), 0)]);
    Walk(s, s.procs, 1, QUIET, Stored(s.mem), CreateTouch("a", "g"), m, Finished(Done));
    ReachesMore(s, State(m, s.procs[1 := Finished(Done)]), Tick(100), 0);
    m := m.(now := 100);
  }

  /**
   The unpinned touch of a create is a real gap: a run with no delete request in
   which create_sandbox has already succeeded and refreshed "a" at time 100, and
   the reaper, whose cutoff is 90, then erases that very generation.
   */
  lemma CreateTouchLandsInWindow(s: State) returns (before: State, after: State)
    requires Init(s) && s.mem.now == 0 && s.mem.idle == 10
    ensures Reaches(s, before, 0) && AtErase(before, 0) && Enabled(before, 0, QUIET) && after == Run(before, 0, QUIET)
    ensures before.procs[0].who.cutoff == 90 && before.mem.activity == map["a" := Seen(Some("g"), 100)]
    ensures 2 in before.procs && before.procs[2] == Finished(Done)
    ensures "a" in before.mem.records && "a" !in after.mem.records
  {
    var m := FirstCreate(s);
    var done := map[0 := ReapScan([]), 1 := Finished(Done)];
    CreateUpToTouch(s, m, done, 2);
    var late := done[2 := CreateTouch("a", "g")];
    assert late[0 := ReapScan([])] == late && Stored(m) == m;
    ReapUpToErase(s, m, late);
    var erase := DeleteErase(Reaper([], 90), "a", Some("g"));
    assert late[0 := erase] == late[0 := erase][2 := CreateTouch("a", "g")];
    TouchAndErase(Marked(m), 2);
    var m' := Marked(m).(activity := map["a" := Seen(Some("g"), 100)]);
    Walk(s, late[0 := erase], 2, QUIET, Marked(m), CreateTouch("a", "g"), m', Finished(Done));
    before := State(m', late[0 := erase][2 := Finished(Done)]);
    after := Run(before, 0, QUIET);
    TouchAndErase(m', 0);
    RunInPlace(before, 0, QUIET);
  }
}
