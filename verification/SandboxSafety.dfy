/**
 Safety of the provisioner over whole runs: a delete never overlaps a pin, the
 quiesced provisioner stays empty, and deletes only remove what they observed.
 */
module SandboxSafety {
  import opened Prelude
  import opened SandboxState
  import opened SandboxProtocol
  import opened SandboxInvariants

  // ------------------------------------------------------------ deletes and pins exclude each other

  /** The discipline: no two threads between begin_delete and end_delete of one id. */
  ghost predicate OneDeleterPerId(s: State) {
    forall t, u, id :: t in s.procs && u in s.procs && InFlight(s.procs[t], id) && InFlight(s.procs[u], id) ==> t == u
  }

  /** No thread holds a pin on an id while another is past the drain of that id's delete. */
  ghost predicate Exclusive(s: State) {
    forall t, u, id :: t in s.procs && u in s.procs && Drained(s.procs[t], id) ==> !Plays(s.procs[u], Pinning(id))
  }

  ghost predicate MarksHeld(s: State) {
    forall t, id :: t in s.procs ==> MarkHeld(s.mem, s.procs[t], id)
  }

  lemma HeldMarksExclude(s: State)
    requires PinsCount(s) && MarksHeld(s)
    ensures Exclusive(s)
  {
    forall t, u, id | t in s.procs && u in s.procs && Drained(s.procs[t], id)
      ensures !Plays(s.procs[u], Pinning(id))
    {
      assert MarkHeld(s.mem, s.procs[t], id);
      if Plays(s.procs[u], Pinning(id)) {
        PlayerIsCounted(s.procs, u, Pinning(id));
      }
    }
  }

  /** Only a thread in flight on an id unmarks it, and nobody takes a pin on a marked id. */
  predicate KeepsMark(m: Memory, pc: Pc, id: SandboxId, e: Effect) {
    && (id in m.pins.deleting && !InFlight(pc, id) ==> id in e.mem.pins.deleting)
    && (id in m.pins.deleting ==> e.mem.pins.Count(id) <= m.pins.Count(id))
    && (InFlight(e.next, id) && (InFlight(pc, id) ==> id in m.pins.deleting) ==> id in e.mem.pins.deleting)
    && (Drained(e.next, id) ==> e.mem.pins.Count(id) == m.pins.Count(id) && (Drained(pc, id) || m.pins.Count(id) == 0))
  }

  lemma CreateKeepsMark(m: Memory, pc: Pc, t: Thread, c: Choice, id: SandboxId)
    requires CreatePc(pc)
    ensures KeepsMark(m, pc, id, MoveCreate(m, pc, t, c))
  {
  }

  lemma VisitKeepsMark(m: Memory, pc: Pc, t: Thread, c: Choice, id: SandboxId)
    requires VisitPc(pc)
    ensures KeepsMark(m, pc, id, MoveVisit(m, pc, t, c))
  {
  }

  lemma DeleteKeepsMark(m: Memory, pc: Pc, t: Thread, c: Choice, id: SandboxId)
    requires DeletePc(pc)
    ensures KeepsMark(m, pc, id, MoveDelete(m, pc, t, c))
  {
  }

  lemma SweepKeepsMark(m: Memory, pc: Pc, t: Thread, c: Choice, id: SandboxId)
    requires SweepPc(pc)
    ensures KeepsMark(m, pc, id, MoveSweep(m, pc, t, c))
  {
  }

  lemma MarkKept(m: Memory, pc: Pc, t: Thread, c: Choice, id: SandboxId)
    ensures KeepsMark(m, pc, id, Move(m, pc, t, c))
  {
    if CreatePc(pc) {
      CreateKeepsMark(m, pc, t, c, id);
    } else if VisitPc(pc) {
      VisitKeepsMark(m, pc, t, c, id);
    } else if DeletePc(pc) {
      DeleteKeepsMark(m, pc, t, c, id);
    } else {
      SweepKeepsMark(m, pc, t, c, id);
    }
  }

  predicate MarkHeld(m: Memory, pc: Pc, id: SandboxId) {
    InFlight(pc, id) ==> id in m.pins.deleting && (Drained(pc, id) ==> m.pins.Count(id) == 0)
  }

  lemma OtherMarkHeld(m: Memory, pc: Pc, t: Thread, c: Choice, other: Pc, id: SandboxId)
    requires MarkHeld(m, other, id) && !(InFlight(pc, id) && InFlight(other, id))
    ensures MarkHeld(Move(m, pc, t, c).mem, other, id)
  {
    MarkKept(m, pc, t, c, id);
  }

  lemma OwnMarkHeld(m: Memory, pc: Pc, t: Thread, c: Choice, id: SandboxId)
    requires MarkHeld(m, pc, id)
    ensures MarkHeld(Move(m, pc, t, c).mem, Move(m, pc, t, c).next, id)
  {
    MarkKept(m, pc, t, c, id);
  }

  /**
   Marks held after an effect by its thread and by all that stay are held by all, new
   threads having none in flight.
   */
  lemma MarksHeldAcross(s: State, s': State, t: Thread, e: Effect)
    requires StepsTo(s, s', t, e)
    requires forall id :: MarkHeld(e.mem, e.next, id)
    requires forall u, id :: u in s.procs && u != t ==> MarkHeld(e.mem, s.procs[u], id)
    ensures MarksHeld(s')
  {
    forall u, id | u in s'.procs ensures MarkHeld(s'.mem, s'.procs[u], id) {
      if u != t && u in s.procs {
        assert MarkHeld(e.mem, s.procs[u], id);
      }
    }
  }

  lemma OtherStaysHeld(s: State, t: Thread, c: Choice, u: Thread, id: SandboxId)
    requires t in s.procs && u in s.procs && u != t && MarksHeld(s) && OneDeleterPerId(s)
    ensures MarkHeld(Move(s.mem, s.procs[t], t, c).mem, s.procs[u], id)
  {
    assert MarkHeld(s.mem, s.procs[u], id);
    OtherMarkHeld(s.mem, s.procs[t], t, c, s.procs[u], id);
  }

  lemma MarksHeldStep(s: State, t: Thread, c: Choice)
    requires Enabled(s, t, c) && MarksHeld(s) && OneDeleterPerId(s)
    ensures MarksHeld(Run(s, t, c))
  {
    var e := Move(s.mem, s.procs[t], t, c);
    RunSteps(s, t, c);
    forall id ensures MarkHeld(e.mem, e.next, id) {
      OwnMarkHeld(s.mem, s.procs[t], t, c, id);
    }
    forall u, id | u in s.procs && u != t ensures MarkHeld(e.mem, s.procs[u], id) {
      OtherStaysHeld(s, t, c, u, id);
    }
    MarksHeldAcross(s, Run(s, t, c), t, e);
  }

  lemma {:induction false} MarksHeldInRun(trace: seq<State>, actions: seq<Action>, i: nat)
    requires Execution(trace, actions) && i < |trace|
    requires forall k :: 0 <= k < i ==> OneDeleterPerId(trace[k])
    ensures MarksHeld(trace[i])
  {
    if i > 0 {
      MarksHeldInRun(trace, actions, i - 1);
      if actions[i - 1].Step? {
        MarksHeldStep(trace[i - 1], actions[i - 1].t, actions[i - 1].c);
      } else {
        forall t, id | t in trace[i].procs ensures MarkHeld(trace[i].mem, trace[i].procs[t], id) {
          assert t in trace[i - 1].procs ==> MarkHeld(trace[i - 1].mem, trace[i - 1].procs[t], id);
        }
      }
    }
  }

  /** Drain before delete: under the discipline no run ever deletes a pinned sandbox. */
  lemma DeleteExcludesPins(trace: seq<State>, actions: seq<Action>, i: nat)
    requires Execution(trace, actions) && i < |trace|
    requires forall k :: 0 <= k < i ==> OneDeleterPerId(trace[k])
    ensures Exclusive(trace[i])
  {
    ExecutionInv(trace, actions, i);
    MarksHeldInRun(trace, actions, i);
    HeldMarksExclude(trace[i]);
  }

  // ------------------------------------------------------------ the discipline is needed

  /** How many delete requests arrive in a list of actions. */
  function DeletesArriving(actions: seq<Action>): nat {
    if actions == [] then 0 else
      var last := actions[|actions| - 1];
      DeletesArriving(actions[..|actions| - 1]) + (if last.Arrive? && last.pc.DeleteBegin? then 1 else 0)
  }

  /** Some run leads from s to s' while exactly n delete requests arrive. */
  ghost predicate Reaches(s: State, s': State, n: nat) {
    exists trace, actions :: Steps(trace, actions) && trace[0] == s && trace[|actions|] == s' &&
      DeletesArriving(actions) == n
  }

  lemma ReachesSelf(s: State)
    ensures Reaches(s, s, 0)
  {
    assert Steps([s], []);
  }

  lemma ReachesMore(s: State, s': State, a: Action, n: nat)
    requires Reaches(s, s', n) && Possible(s', a)
    ensures Reaches(s, Act(s', a), n + if a.Arrive? && a.pc.DeleteBegin? then 1 else 0)
  {
    var trace, actions :| Steps(trace, actions) && trace[0] == s && trace[|actions|] == s' &&
      DeletesArriving(actions) == n;
    var longer := actions + [a];
    assert longer[..|longer| - 1] == actions;
    assert Steps(trace + [Act(s', a)], longer);
    assert (trace + [Act(s', a)])[|longer|] == Act(s', a);
  }

  lemma SomeToken(issued: set<Generation>) returns (token: Generation)
    ensures token != "" && token !in issued
  {
    var longest := 0;
    var rest := issued;
    while rest != {}
      invariant rest <= issued && longest >= 0
      invariant forall g :: g in issued && g !in rest ==> |g| <= longest
      decreases rest
    {
      var g :| g in rest;
      rest := rest - {g};
      longest := if |g| > longest then |g| else longest;
    }
    token := seq(longest + 1, _ => 'x');
  }

  /** One step of an awake thread, kept reachable and invariant. */
  lemma Advance(s: State, s1: State, n: nat, t: Thread, c: Choice) returns (s2: State)
    requires Reaches(s, s1, n) && Inv(s1) && Enabled(s1, t, c)
    ensures s2 == Run(s1, t, c) && Reaches(s, s2, n) && Inv(s2)
  {
    s2 := Run(s1, t, c);
    StepKeepsInv(s1, t, c);
    ReachesMore(s, s1, Step(t, c), n);
  }

  /** Deleters stay exactly where they are. */
  ghost predicate DeletersKept(s: State, s': State, except: Thread) {
    forall u :: u in s.procs && u != except && DeletePc(s.procs[u]) ==> u in s'.procs && s'.procs[u] == s.procs[u]
  }

  lemma {:induction false} ReleaseHolder(s: State, s1: State, n: nat, h: Thread, id: SandboxId) returns (s2: State)
    requires Reaches(s, s1, n) && Inv(s1) && h in s1.procs && Plays(s1.procs[h], Pinning(id))
    ensures Reaches(s, s2, n) && Inv(s2) && DeletersKept(s1, s2, h)
    ensures s2.mem.pins.Count(id) == s1.mem.pins.Count(id) - 1
    decreases if s1.procs[h].CreateRelease? || s1.procs[h].VisitRelease? then 0
              else if s1.procs[h].VisitDiscover? then 2 else 1
  {
    var token := SomeToken(s1.mem.issued);
    var c := Choice(true, false, token, map[], []);
    PlayerIsCounted(s1.procs, h, Pinning(id));
    PinMove(s1.mem, s1.procs[h], h, c, id);
    OthersKept(s1, h, c);
    s2 := Advance(s, s1, n, h, c);
    if Plays(s2.procs[h], Pinning(id)) {
      s2 := ReleaseHolder(s, s2, n, h, id);
    }
  }

  lemma {:induction false} ReleaseAll(s: State, s1: State, n: nat, id: SandboxId) returns (s2: State)
    requires Reaches(s, s1, n) && Inv(s1)
    ensures Reaches(s, s2, n) && Inv(s2) && s2.mem.pins.Count(id) == 0
    ensures forall u :: u in s1.procs && DeletePc(s1.procs[u]) ==> u in s2.procs && s2.procs[u] == s1.procs[u]
    decreases s1.mem.pins.Count(id)
  {
    if s1.mem.pins.Count(id) == 0 {
      return s1;
    }
    assert |Players(s1.procs, Pinning(id))| > 0;
    var h :| h in Players(s1.procs, Pinning(id));
    s2 := ReleaseHolder(s, s1, n, h, id);
    s2 := ReleaseAll(s, s2, n, id);
  }

  function DeleteRank(pc: Pc): nat {
    if pc.ReapClock? then 4 else if pc.ReapCheck? then 3 else if pc.DeleteErase? then 2
    else if pc.ReapForget? then 1 else 0
  }

  lemma DrainedMove(m: Memory, pc: Pc, t: Thread, c: Choice, id: SandboxId)
    requires WellFormed(pc) && (Drained(pc, id) || (pc.DeleteDrain? && pc.id == id && m.pins.Count(id) == 0))
    ensures var e := Move(m, pc, t, c);
            if pc.DeleteEnd? then id !in e.mem.pins.deleting
            else Drained(e.next, id) && e.mem.pins.Count(id) == m.pins.Count(id)
                 && (Drained(pc, id) ==> DeleteRank(e.next) < DeleteRank(pc))
  {
  }

  /** A drained deleter can run through its end_delete, which unmarks the id. */
  lemma {:induction false} FinishDelete(s: State, s1: State, n: nat, t: Thread, id: SandboxId) returns (s2: State)
    requires Reaches(s, s1, n) && Inv(s1) && t in s1.procs && Drained(s1.procs[t], id)
    ensures Reaches(s, s2, n) && Inv(s2) && DeletersKept(s1, s2, t)
    ensures id !in s2.mem.pins.deleting
    decreases DeleteRank(s1.procs[t])
  {
    var c := Choice(true, false, "", map[], []);
    OthersKept(s1, t, c);
    DrainedMove(s1.mem, s1.procs[t], t, c, id);
    s2 := Advance(s, s1, n, t, c);
    if !s1.procs[t].DeleteEnd? {
      s2 := FinishDelete(s, s2, n, t, id);
    }
  }

  lemma Admit(s: State, s1: State, n: nat, t: Thread, pc: Pc) returns (s2: State)
    requires Reaches(s, s1, n) && Inv(s1) && t !in s1.procs && Arrival(pc)
    ensures Reaches(s, s2, n + if pc.DeleteBegin? then 1 else 0) && Inv(s2)
    ensures s2 == State(s1.mem, s1.procs[t := pc]) && t !in s2.mem.pins.asleep && t !in s2.mem.gate.asleep
  {
    ActKeepsInv(s1, Arrive(t, pc));
    ReachesMore(s, s1, Arrive(t, pc), n);
    s2 := State(s1.mem, s1.procs[t := pc]);
  }

  lemma ArriveAndRun(s: State, s1: State, n: nat, t: Thread, pc: Pc) returns (s2: State)
    requires Reaches(s, s1, n) && Inv(s1) && t !in s1.procs && Arrival(pc) && (pc.VisitAcquire? || pc.DeleteBegin?)
    ensures Reaches(s, s2, n + if pc.DeleteBegin? then 1 else 0) && Inv(s2)
    ensures forall u :: u in s1.procs ==> u in s2.procs && s2.procs[u] == s1.procs[u]
    ensures t in s2.procs && s2.mem == Move(s1.mem, pc, t, Choice(false, false, "", map[], [])).mem
    ensures s2.procs[t] == Move(s1.mem, pc, t, Choice(false, false, "", map[], [])).next
  {
    var c := Choice(false, false, "", map[], []);
    var mid := Admit(s, s1, n, t, pc);
    var m := n + if pc.DeleteBegin? then 1 else 0;
    OthersKept(mid, t, c);
    assert Enabled(mid, t, c);
    s2 := Advance(s, mid, m, t, c);
    forall u | u in s1.procs ensures u in s2.procs && s2.procs[u] == s1.procs[u] {
      assert u in mid.procs && u != t;
    }
  }

  lemma FreshThread(s: State) returns (t: Thread)
    ensures t !in s.procs
  {
    t := 0;
    var rest := s.procs.Keys;
    while rest != {}
      invariant rest <= s.procs.Keys
      invariant forall u :: u in s.procs && u !in rest ==> u < t
      decreases rest
    {
      var u :| u in rest;
      rest := rest - {u};
      t := if u >= t then u + 1 else t;
    }
  }

  lemma DrainFirst(s: State, t: Thread, id: SandboxId) returns (s1: State)
    requires Inv(s) && t in s.procs && InFlight(s.procs[t], id)
    ensures Reaches(s, s1, 0) && Inv(s1) && t in s1.procs && Drained(s1.procs[t], id) && s1.mem.pins.Count(id) == 0
  {
    ReachesSelf(s);
    s1 := ReleaseAll(s, s, 0, id);
    if s1.procs[t].DeleteDrain? {
      var c := Choice(true, false, "", map[], []);
      OthersKept(s1, t, c);
      DrainedMove(s1.mem, s1.procs[t], t, c, id);
      s1 := Advance(s, s1, 0, t, c);
    }
  }

  lemma UnpinnedDeleteDrains(m: Memory, t: Thread, id: SandboxId)
    requires m.pins.Count(id) == 0
    ensures Drained(Move(m, DeleteBegin(Request, id, None), t, Choice(false, false, "", map[], [])).next, id)
  {
  }

  lemma OverlapSecond(s: State, s1: State, first: Thread, id: SandboxId) returns (s2: State, second: Thread)
    requires Reaches(s, s1, 0) && Inv(s1) && first in s1.procs && Drained(s1.procs[first], id) &&
             s1.mem.pins.Count(id) == 0
    ensures Reaches(s, s2, 1) && Inv(s2) && second in s2.procs && Drained(s2.procs[second], id)
    ensures id !in s2.mem.pins.deleting
  {
    second := FreshThread(s1);
    UnpinnedDeleteDrains(s1.mem, second, id);
    var mid := ArriveAndRun(s, s1, 0, second, DeleteBegin(Request, id, None));
    s2 := FinishDelete(s, mid, 1, first, id);
  }

  /**
   The discipline cannot be dropped anywhere: from every reachable state with a
   deleter of an id in flight, admitting one more delete of that id leads, in
   some continuation, to a pin taken while that delete runs.
   */
  lemma SecondDeleterBreaksExclusion(s: State, first: Thread, id: SandboxId) returns (bad: State)
    requires Inv(s) && first in s.procs && InFlight(s.procs[first], id)
    ensures Reaches(s, bad, 1) && !Exclusive(bad)
  {
    var s1 := DrainFirst(s, first, id);
    var s2, second := OverlapSecond(s, s1, first, id);
    var visitor := FreshThread(s2);
    bad := ArriveAndRun(s, s2, 1, visitor, VisitAcquire(id, false));
    assert bad.procs[second] == s2.procs[second];
    assert Plays(bad.procs[visitor], Pinning(id));
  }

  // ------------------------------------------------------------ quiescence

  predicate PastGate(pc: Pc) {
    pc.QuiesceList? || pc.QuiesceJoin? || (pc.Finished? && pc.outcome.Swept?)
  }

  predicate Closed(m: Memory) {
    m.gate.started && m.gate.creates == 0
  }

  predicate RecordsShrink(before: Inventory, after: Inventory) {
    forall id :: id in after ==> id in before && after[id] == before[id]
  }

  /** A worker that has not yet removed the record of this id. */
  predicate Unresolved(pc: Pc, id: SandboxId, g: Generation) {
    || ((pc.DeleteBegin? || pc.DeleteDrain? || pc.DeleteErase?) && pc.who.Worker? && pc.id == id && pc.fence == Some(g))
    || (pc.DeleteEnd? && pc.who.Worker? && pc.result.Broken? && pc.id == id)
    || (pc.Finished? && (pc.outcome == WorkerFailed(id) || pc.outcome == Cancelled(id)))
  }

  ghost predicate Pursued(s: State, workers: set<Thread>, id: SandboxId) {
    id in s.mem.records ==>
      exists w :: w in workers && w in s.procs && Unresolved(s.procs[w], id, s.mem.records[id].generation)
  }

  ghost predicate SweepOk(s: State, pc: Pc) {
    match pc
    case QuiesceDrain => s.mem.gate.started
    case QuiesceList(rounds) => Closed(s.mem) && (rounds > 0 ==> rounds == 1 && s.mem.records == map[])
    case QuiesceJoin(rounds, workers) => Closed(s.mem) && rounds == 1 && forall id :: Pursued(s, workers, id)
    case Finished(Swept(rounds)) => Closed(s.mem) && rounds <= 2 && s.mem.records == map[]
    case _ => true
  }

  /** Past the gate, every listed record is gone or still has its worker, and at most two listings are made. */
  ghost predicate SweepsTrack(s: State) {
    forall t :: t in s.procs ==> SweepOk(s, s.procs[t])
  }

  /** Once the gate has closed on zero creates it stays so, no create runs, and records only disappear. */
  lemma ClosedStep(s: State, t: Thread, c: Choice)
    requires Enabled(s, t, c) && GateCounts(s) && Closed(s.mem)
    ensures Closed(Run(s, t, c).mem) && !s.procs[t].CreateRun?
    ensures RecordsShrink(s.mem.records, Run(s, t, c).mem.records)
  {
    if Plays(s.procs[t], Creating) {
      PlayerIsCounted(s.procs, t, Creating);
    }
    GateMove(s.mem, s.procs[t], t, c);
  }

  lemma UnresolvedMove(m: Memory, pc: Pc, t: Thread, c: Choice, id: SandboxId)
    requires id in m.records && m.records[id].generation != ""
    requires Unresolved(pc, id, m.records[id].generation) && !pc.Finished?
    ensures var e := Move(m, pc, t, c);
            id !in e.mem.records || Unresolved(e.next, id, m.records[id].generation)
  {
  }

  lemma PursuedStep(s: State, t: Thread, c: Choice, workers: set<Thread>, id: SandboxId)
    requires Enabled(s, t, c) && GateCounts(s) && Closed(s.mem) && TokensIssued(s.mem) && Pursued(s, workers, id)
    ensures Pursued(Run(s, t, c), workers, id)
  {
    ClosedStep(s, t, c);
    OthersKept(s, t, c);
    var s' := Run(s, t, c);
    if id in s'.mem.records {
      var w :| w in workers && w in s.procs && Unresolved(s.procs[w], id, s.mem.records[id].generation);
      if w == t {
        UnresolvedMove(s.mem, s.procs[t], t, c, id);
      }
      assert Unresolved(s'.procs[w], id, s'.mem.records[id].generation);
    }
  }

  lemma StartedStays(m: Memory, pc: Pc, t: Thread, c: Choice)
    ensures m.gate.started ==> Move(m, pc, t, c).mem.gate.started
    ensures pc.QuiesceBegin? ==> Move(m, pc, t, c).mem.gate.started
  {
  }

  lemma OwnSweepStep(s: State, t: Thread, c: Choice)
    requires Enabled(s, t, c) && SweepOk(s, s.procs[t]) && Shapes(s) && TokensIssued(s.mem)
    requires !CreatePc(s.procs[t]) && !VisitPc(s.procs[t]) && !DeletePc(s.procs[t])
    ensures SweepOk(Run(s, t, c), MoveSweep(s.mem, s.procs[t], t, c).next)
  {
    var s', pc := Run(s, t, c), s.procs[t];
    OthersKept(s, t, c);
    match pc
    case QuiesceList(rounds) =>
      if !c.fails && s.mem.records != map[] {
        forall id ensures Pursued(s', c.workers.Keys, id) {
          if id in s.mem.records {
            var w :| w in c.workers && c.workers[w] == id;
            assert s'.procs[w] == Spawned(s.mem, t, c.workers)[w];
            assert Unresolved(s'.procs[w], id, s.mem.records[id].generation);
          }
        }
      }
    case QuiesceJoin(rounds, workers) =>
      if !c.fails {
        forall id ensures id !in s.mem.records {
          assert Pursued(s, workers, id);
        }
        assert s.mem.records == map[];
      }
    case _ =>
  }

  lemma OtherSweepStep(s: State, t: Thread, c: Choice, pc: Pc)
    requires Enabled(s, t, c) && SweepOk(s, pc) && GateCounts(s) && TokensIssued(s.mem)
    ensures SweepOk(Run(s, t, c), pc)
  {
    if pc.QuiesceDrain? {
      StartedStays(s.mem, s.procs[t], t, c);
    } else if PastGate(pc) {
      ClosedStep(s, t, c);
      if pc.QuiesceJoin? {
        forall id ensures Pursued(Run(s, t, c), pc.workers, id) {
          PursuedStep(s, t, c, pc.workers, id);
        }
      }
    }
  }

  /** Handlers of other kinds never become a quiescer. */
  lemma OnlySweepsSweep(m: Memory, pc: Pc, t: Thread, c: Choice)
    requires CreatePc(pc) || VisitPc(pc) || DeletePc(pc)
    ensures var next := Move(m, pc, t, c).next;
            !PastGate(next) && !next.QuiesceDrain?
  {
  }

  lemma SweepsTrackStep(s: State, t: Thread, c: Choice)
    requires Enabled(s, t, c) && Inv(s) && SweepsTrack(s)
    ensures SweepsTrack(Run(s, t, c))
  {
    var s' := Run(s, t, c);
    OthersKept(s, t, c);
    forall u | u in s'.procs ensures SweepOk(s', s'.procs[u]) {
      if u != t && u in s.procs {
        OtherSweepStep(s, t, c, s.procs[u]);
      } else if u == t {
        if CreatePc(s.procs[t]) || VisitPc(s.procs[t]) || DeletePc(s.procs[t]) {
          OnlySweepsSweep(s.mem, s.procs[t], t, c);
        } else {
          OwnSweepStep(s, t, c);
        }
      }
    }
  }

  /** The same for arrivals and for time passing. */
  lemma SweepsTrackAct(s: State, a: Action)
    requires Possible(s, a) && Inv(s) && SweepsTrack(s)
    ensures SweepsTrack(Act(s, a))
  {
    match a
    case Step(t, c) => SweepsTrackStep(s, t, c);
    case Arrive(t, pc) =>
      forall u | u in Act(s, a).procs ensures SweepOk(Act(s, a), Act(s, a).procs[u]) {
        SweepOkIgnoresArrival(s, t, pc, Act(s, a).procs[u]);
      }
    case Tick(now) =>
      forall u | u in s.procs ensures SweepOk(Act(s, a), s.procs[u]) {
        SweepOkIgnoresTime(s, now, s.procs[u]);
      }
  }

  lemma {:induction false} SweepsTrackInRun(trace: seq<State>, actions: seq<Action>, i: nat)
    requires Execution(trace, actions) && i < |trace|
    ensures SweepsTrack(trace[i])
  {
    if i > 0 {
      SweepsTrackInRun(trace, actions, i - 1);
      ExecutionInv(trace, actions, i - 1);
      SweepsTrackAct(trace[i - 1], actions[i - 1]);
    }
  }

  lemma SweepOkIgnoresArrival(s: State, t: Thread, pc: Pc, other: Pc)
    requires t !in s.procs && (SweepOk(s, other) || (other == pc && Arrival(pc)))
    ensures SweepOk(Act(s, Arrive(t, pc)), other)
  {
    if SweepOk(s, other) && other.QuiesceJoin? {
      var s' := Act(s, Arrive(t, pc));
      forall id ensures Pursued(s', other.workers, id) {
        assert Pursued(s, other.workers, id);
        if id in s.mem.records {
          var w :| w in other.workers && w in s.procs && Unresolved(s.procs[w], id, s.mem.records[id].generation);
          assert s'.procs[w] == s.procs[w];
        }
      }
    }
  }

  lemma SweepOkIgnoresTime(s: State, now: int, other: Pc)
    requires SweepOk(s, other)
    ensures SweepOk(Act(s, Tick(now)), other)
  {
    if other.QuiesceJoin? {
      forall id ensures Pursued(Act(s, Tick(now)), other.workers, id) {
        assert Pursued(s, other.workers, id);
      }
    }
  }

  lemma ClosedAct(s: State, a: Action)
    requires Possible(s, a) && Inv(s) && Closed(s.mem)
    ensures Closed(Act(s, a).mem) && RecordsShrink(s.mem.records, Act(s, a).mem.records)
  {
    if a.Step? {
      ClosedStep(s, a.t, a.c);
    }
  }

  lemma ShrinksOn(a: map<SandboxId, Record>, b: map<SandboxId, Record>, c: map<SandboxId, Record>)
    requires RecordsShrink(a, b) && RecordsShrink(b, c)
    ensures RecordsShrink(a, c)
  {
  }

  predicate ClosedSince(trace: seq<State>, i: nat, j: nat)
    requires i < |trace| && j < |trace|
  {
    Closed(trace[j].mem) && RecordsShrink(trace[i].mem.records, trace[j].mem.records)
  }

  lemma ClosedNext(trace: seq<State>, actions: seq<Action>, i: nat, j: nat)
    requires Execution(trace, actions) && i <= j < |actions| && ClosedSince(trace, i, j)
    ensures ClosedSince(trace, i, j + 1)
  {
    ExecutionInv(trace, actions, j);
    ClosedAct(trace[j], actions[j]);
    ShrinksOn(trace[i].mem.records, trace[j].mem.records, trace[j + 1].mem.records);
  }

  lemma ClosedForever(trace: seq<State>, actions: seq<Action>, i: nat, j: nat)
    requires Execution(trace, actions) && i <= j < |trace| && Closed(trace[i].mem)
    ensures ClosedSince(trace, i, j)
  {
    var closed := (k: nat) => i + k < |trace| ==> ClosedSince(trace, i, i + k);
    forall k: nat ensures Carries(closed, k) {
      if closed(k) && i + k < |actions| {
        ClosedNext(trace, actions, i, i + k);
      }
    }
    assert ClosedSince(trace, i, i) && i + 0 == i;
    assert closed(0);
    Always(closed, j - i);
  }

  /**
   From the moment a quiescer returns from the gate no create ever executes and
   records only disappear; if it reports success the inventory is empty then and
   for ever, and it made at most two listings.
   */
  lemma QuiescedForever(trace: seq<State>, actions: seq<Action>, i: nat, j: nat, q: Thread)
    requires Execution(trace, actions) && i <= j < |trace|
    requires q in trace[i].procs && PastGate(trace[i].procs[q])
    ensures RecordsShrink(trace[i].mem.records, trace[j].mem.records)
    ensures j < |actions| && actions[j].Step? ==> !trace[j].procs[actions[j].t].CreateRun?
    ensures trace[i].procs[q].Finished? ==> trace[j].mem.records == map[] && trace[i].procs[q].outcome.rounds <= 2
  {
    SweepsTrackInRun(trace, actions, i);
    assert SweepOk(trace[i], trace[i].procs[q]);
    ClosedForever(trace, actions, i, j);
    ExecutionInv(trace, actions, j);
    if j < |actions| && actions[j].Step? {
      ClosedStep(trace[j], actions[j].t, actions[j].c);
    }
  }
}
