/**
 Progress of the provisioner: while any request, deletion or quiescence is
 unfinished some thread can work, and work cannot go on for ever. So under any
 scheduler every admitted request comes to its end, also when several deletes of
 one id overlap.
 */
module SandboxProgress {
  import opened Prelude
  import opened SandboxState
  import opened SandboxProtocol
  import opened SandboxInvariants
  import opened SandboxSafety

  // ------------------------------------------------------------ some thread can work

  /** Not done, and not the reaper waiting for its next interval. */
  predicate Busy(pc: Pc) {
    !pc.Finished? && pc != ReapScan([])
  }

  predicate Awake(s: State, t: Thread) {
    t in s.procs && t !in s.mem.pins.asleep && t !in s.mem.gate.asleep
  }

  lemma WorkersFor(s: State, ids: set<SandboxId>, from: nat) returns (workers: map<Thread, SandboxId>)
    requires forall w :: w in s.procs ==> w < from
    ensures forall w :: w in workers ==> w >= from && workers[w] in ids
    ensures forall id :: id in ids ==> exists w :: w in workers && workers[w] == id
    ensures forall v, w :: v in workers && w in workers && workers[v] == workers[w] ==> v == w
    decreases ids
  {
    workers := map[];
    if ids != {} {
      var id :| id in ids;
      var rest := WorkersFor(s, ids - {id}, from + 1) by {
        assert forall w :: w in s.procs ==> w < from + 1;
      }
      workers := rest[from := id];
      forall other | other in ids ensures exists w :: w in workers && workers[w] == other {
        if other == id {
          assert workers[from] == id;
        } else {
          assert other in ids - {id};
          var w :| w in rest && rest[w] == other;
          assert workers[w] == other;
        }
      }
    }
  }

  lemma ThreadBound(s: State) returns (bound: nat)
    ensures forall w :: w in s.procs ==> w < bound
  {
    bound := 0;
    var rest := s.procs.Keys;
    while rest != {}
      invariant rest <= s.procs.Keys
      invariant forall u :: u in s.procs && u !in rest ==> u < bound
      decreases rest
    {
      var u :| u in rest;
      rest := rest - {u};
      bound := if u >= bound then u + 1 else bound;
    }
  }

  /** An awake busy thread that is not joining its workers can always take its step. */
  lemma AwakeCanStep(s: State, t: Thread) returns (c: Choice)
    requires Awake(s, t) && Busy(s.procs[t]) && !s.procs[t].QuiesceJoin?
    ensures Enabled(s, t, c) && !c.expired
  {
    var token := SomeToken(s.mem.issued);
    var bound := ThreadBound(s);
    var workers := WorkersFor(s, s.mem.records.Keys, bound);
    c := Choice(false, false, token, workers, []);
  }

  lemma HolderCanStep(s: State, id: SandboxId) returns (u: Thread, c: Choice)
    requires Inv(s) && s.mem.pins.Count(id) > 0
    ensures Enabled(s, u, c) && !c.expired && Busy(s.procs[u])
  {
    assert |Players(s.procs, Pinning(id))| > 0;
    u :| u in Players(s.procs, Pinning(id));
    c := AwakeCanStep(s, u);
  }

  lemma DeleterCanStep(s: State, id: SandboxId) returns (u: Thread, c: Choice)
    requires Inv(s) && id in s.mem.pins.deleting
    ensures Enabled(s, u, c) && !c.expired && Busy(s.procs[u])
  {
    u :| u in s.procs && InFlight(s.procs[u], id);
    if Awake(s, u) {
      c := AwakeCanStep(s, u);
    } else {
      u, c := HolderCanStep(s, id);
    }
  }

  /** For a thread parked on the pins: the deleter or the holder it waits for, or one that thread waits for. */
  lemma UnparkedCanStep(s: State, t: Thread) returns (u: Thread, c: Choice)
    requires Inv(s) && t in s.procs && Busy(s.procs[t]) && t !in s.mem.gate.asleep && !s.procs[t].QuiesceJoin?
    ensures Enabled(s, u, c) && !c.expired && Busy(s.procs[u])
  {
    if t in s.mem.pins.asleep {
      if s.procs[t].DeleteDrain? {
        u, c := HolderCanStep(s, s.procs[t].id);
      } else {
        u, c := DeleterCanStep(s, s.procs[t].id);
      }
    } else {
      u := t;
      c := AwakeCanStep(s, t);
    }
  }

  /** No deadlock: while any thread is busy, some busy thread can step without waiting for a deadline. */
  lemma SomeoneCanWork(s: State, t: Thread) returns (u: Thread, c: Choice)
    requires Inv(s) && t in s.procs && Busy(s.procs[t])
    ensures Enabled(s, u, c) && !c.expired && Busy(s.procs[u])
  {
    if t in s.mem.gate.asleep {
      assert |Players(s.procs, Creating)| > 0;
      u :| u in Players(s.procs, Creating);
      u, c := UnparkedCanStep(s, u);
    } else if s.procs[t].QuiesceJoin? {
      u, c := JoinCanStep(s, t);
    } else {
      u, c := UnparkedCanStep(s, t);
    }
  }

  lemma JoinCanStep(s: State, t: Thread) returns (u: Thread, c: Choice)
    requires Inv(s) && t in s.procs && s.procs[t].QuiesceJoin? && t !in s.mem.gate.asleep
    ensures Enabled(s, u, c) && !c.expired && Busy(s.procs[u])
  {
    assert t !in s.mem.pins.asleep;
    var workers := s.procs[t].workers;
    c := Choice(false, false, "", map[], []);
    u := t;
    if w :| w in workers && w in s.procs && Lost(s.procs[w]) {
      c := Choice(true, false, "", map[], []);
    } else if w :| w in workers && s.procs[w] != Finished(WorkerDone) {
      assert WorkerPc(s.procs[w], t);
      u, c := UnparkedCanStep(s, w);
    }
  }

  // ------------------------------------------------------------ work cannot go on for ever

  predicate Unlisted(pc: Pc) {
    pc.QuiesceBegin? || pc.QuiesceDrain? || pc == QuiesceList(0)
  }

  function Tail(who: Owner): nat {
    if who.Reaper? then 9 * |who.rest| else 0
  }

  /** Steps a thread may still take, not counting waits and the workers a listing starts. */
  function Rank(pc: Pc): nat {
    match pc
    case CreateEnter(_, _) => 6
    case CreateAcquire(_, _) => 5
    case CreateRun(_, _) => 4
    case CreateRelease(_, _) => 3
    case CreateLeave(_, _) => 2
    case CreateTouch(_, _) => 1
    case VisitAcquire(_, _) => 4
    case VisitDiscover(_, _) => 3
    case VisitTouch(_, _, _) => 2
    case VisitRelease(_, _) => 1
    case DeleteBegin(who, _, _) => 8 + Tail(who)
    case DeleteDrain(who, _, _) => 7 + Tail(who)
    case ReapClock(who, _, _) => 6 + Tail(who)
    case ReapCheck(who, _, _) => 5 + Tail(who)
    case DeleteErase(who, _, _) => 4 + Tail(who)
    case ReapForget(who, _, _) => 3 + Tail(who)
    case DeleteEnd(who, _, _, _) => 2 + Tail(who)
    case DeleteForget(who, _, _) => 1 + Tail(who)
    case QuiesceBegin => 5
    case QuiesceDrain => 4
    case QuiesceList(rounds) => if rounds == 0 then 3 else 1
    case QuiesceJoin(_, _) => 2
    case ReapScan(queue) => 9 * |queue|
    case Finished(_) => 0
  }

  function Ranks(procs: map<Thread, Pc>): map<Thread, nat> {
    map t | t in procs :: Rank(procs[t])
  }

  ghost function Total(f: map<Thread, nat>): nat {
    if f == map[] then 0 else
      var t :| t in f;
      f[t] + Total(f - {t})
  }

  lemma {:induction false} TotalWithout(f: map<Thread, nat>, t: Thread)
    requires t in f
    ensures Total(f) == f[t] + Total(f - {t})
    decreases |f|
  {
    var u :| u in f && Total(f) == f[u] + Total(f - {u});
    if u != t {
      TotalWithout(f - {u}, t);
      TotalWithout(f - {t}, u);
      assert f - {u} - {t} == f - {t} - {u};
    }
  }

  lemma TotalUpdate(f: map<Thread, nat>, t: Thread, n: nat)
    requires t in f
    ensures Total(f[t := n]) == Total(f) - f[t] + n
  {
    TotalWithout(f, t);
    TotalWithout(f[t := n], t);
    assert f[t := n] - {t} == f - {t};
  }

  ghost function UnlistedSet(procs: map<Thread, Pc>): set<Thread> {
    set t | t in procs && Unlisted(procs[t])
  }

  ghost function UnlistedThreads(s: State): nat {
    |UnlistedSet(s.procs)|
  }

  ghost function Work(s: State): nat {
    Total(Ranks(s.procs))
  }

  ghost function AwakeThreads(s: State): nat {
    |set t | t in s.procs && Awake(s, t)|
  }

  predicate Parks(m: Memory, m': Memory, t: Thread) {
    || m' == m.(pins := m.pins.(asleep := m.pins.asleep + {t}))
    || m' == m.(gate := m.gate.(asleep := m.gate.asleep + {t}))
  }

  /** What one move does to its thread: its rank drops, or it parks where it is, or a first listing is made. */
  predicate Descends(m: Memory, pc: Pc, t: Thread, e: Effect) {
    || (Unlisted(pc) && !Unlisted(e.next))
    || ((Unlisted(e.next) ==> Unlisted(pc)) && e.spawned == map[] && Rank(e.next) < Rank(pc))
    || (e.next == pc && e.spawned == map[] && Parks(m, e.mem, t))
  }

  predicate CanDescend(m: Memory, pc: Pc) {
    && WellFormed(pc) && Busy(pc)
    && (pc.QuiesceList? && pc.rounds > 0 ==> m.records == map[])
    && (pc.QuiesceJoin? ==> pc.rounds > 0)
  }

  lemma CreateDescends(m: Memory, pc: Pc, t: Thread, c: Choice)
    requires CreatePc(pc) && CanDescend(m, pc)
    ensures Descends(m, pc, t, MoveCreate(m, pc, t, c))
  {
  }

  lemma VisitDescends(m: Memory, pc: Pc, t: Thread, c: Choice)
    requires VisitPc(pc) && CanDescend(m, pc)
    ensures Descends(m, pc, t, MoveVisit(m, pc, t, c))
  {
  }

  lemma DeleteDescends(m: Memory, pc: Pc, t: Thread, c: Choice)
    requires DeletePc(pc) && CanDescend(m, pc)
    ensures Descends(m, pc, t, MoveDelete(m, pc, t, c))
  {
  }

  lemma SweepDescends(m: Memory, pc: Pc, t: Thread, c: Choice)
    requires SweepPc(pc) && CanDescend(m, pc)
    ensures Descends(m, pc, t, MoveSweep(m, pc, t, c))
  {
  }

  lemma MoveDescends(m: Memory, pc: Pc, t: Thread, c: Choice)
    requires CanDescend(m, pc)
    ensures Descends(m, pc, t, Move(m, pc, t, c))
  {
    if CreatePc(pc) {
      CreateDescends(m, pc, t, c);
    } else if VisitPc(pc) {
      VisitDescends(m, pc, t, c);
    } else if DeletePc(pc) {
      DeleteDescends(m, pc, t, c);
    } else {
      SweepDescends(m, pc, t, c);
    }
  }

  /** What is left to do: first listings still to come, remaining steps, awake threads. */
  datatype Left = Left(unlisted: nat, work: nat, awake: nat)

  ghost function WorkLeft(s: State): Left {
    Left(UnlistedThreads(s), Work(s), AwakeThreads(s))
  }

  /** In lexicographic order. */
  predicate Less(a: Left, b: Left) {
    || a.unlisted < b.unlisted
    || (a.unlisted == b.unlisted && (a.work < b.work || (a.work == b.work && a.awake < b.awake)))
  }

  lemma UnlistedStep(s: State, t: Thread, c: Choice)
    requires Enabled(s, t, c)
    ensures var next := Move(s.mem, s.procs[t], t, c).next;
            UnlistedThreads(Run(s, t, c)) == UnlistedThreads(s) + One(Unlisted(next)) - One(Unlisted(s.procs[t]))
  {
    OthersKept(s, t, c);
    var procs' := Run(s, t, c).procs;
    forall u | u != t ensures u in UnlistedSet(s.procs) <==> u in UnlistedSet(procs') {
    }
    SizeAfterMove(UnlistedSet(s.procs), UnlistedSet(procs'), t);
  }

  lemma WorkInPlace(s: State, t: Thread, pc: Pc, m: Memory)
    requires t in s.procs
    ensures Work(State(m, s.procs[t := pc])) == Work(s) - Rank(s.procs[t]) + Rank(pc)
  {
    assert Ranks(s.procs[t := pc]) == Ranks(s.procs)[t := Rank(pc)];
    TotalUpdate(Ranks(s.procs), t, Rank(pc));
  }

  lemma ParkedStep(s: State, m: Memory, t: Thread)
    requires Awake(s, t) && Parks(s.mem, m, t)
    ensures AwakeThreads(State(m, s.procs)) < AwakeThreads(s)
  {
    var before := set u | u in s.procs && Awake(s, u);
    var after := set u | u in s.procs && Awake(State(m, s.procs), u);
    assert t in before;
    assert after == before - {t};
  }

  lemma InPlaceDescends(s: State, m: Memory, t: Thread, next: Pc)
    requires Awake(s, t) && (Rank(next) < Rank(s.procs[t]) || (next == s.procs[t] && Parks(s.mem, m, t)))
    ensures var s' := State(m, s.procs[t := next]);
            Work(s') < Work(s) || (Work(s') == Work(s) && AwakeThreads(s') < AwakeThreads(s))
  {
    WorkInPlace(s, t, next, m);
    if next == s.procs[t] {
      assert s.procs[t := next] == s.procs;
      ParkedStep(s, m, t);
    }
  }

  /** An effect that makes no first listing leaves its thread a lower rank, or parks it. */
  lemma EffectDescends(s: State, t: Thread, e: Effect)
    requires Awake(s, t) && Descends(s.mem, s.procs[t], t, e) && !(Unlisted(s.procs[t]) && !Unlisted(e.next))
    ensures var s' := State(e.mem, s.procs[t := e.next] + e.spawned);
            && (Unlisted(e.next) ==> Unlisted(s.procs[t]))
            && (Work(s') < Work(s) || (Work(s') == Work(s) && AwakeThreads(s') < AwakeThreads(s)))
  {
    assert s.procs[t := e.next] + e.spawned == s.procs[t := e.next];
    InPlaceDescends(s, e.mem, t, e.next);
  }

  lemma BusyCanDescend(s: State, t: Thread)
    requires Inv(s) && SweepsTrack(s) && t in s.procs && Busy(s.procs[t])
    ensures CanDescend(s.mem, s.procs[t])
  {
    assert SweepOk(s, s.procs[t]) && WellFormed(s.procs[t]);
  }

  /** Every step of a busy thread leaves less work. */
  lemma StepDescends(s: State, t: Thread, c: Choice)
    requires Enabled(s, t, c) && Inv(s) && SweepsTrack(s) && Busy(s.procs[t])
    ensures Less(WorkLeft(Run(s, t, c)), WorkLeft(s))
  {
    var e := Move(s.mem, s.procs[t], t, c);
    BusyCanDescend(s, t);
    MoveDescends(s.mem, s.procs[t], t, c);
    UnlistedStep(s, t, c);
    if !(Unlisted(s.procs[t]) && !Unlisted(e.next)) {
      EffectDescends(s, t, e);
    }
  }

  /** Time passing changes neither the invariants nor the work that is left. */
  lemma TickLeavesWork(s: State, now: int)
    requires Inv(s) && SweepsTrack(s) && s.mem.now <= now
    ensures var s' := Act(s, Tick(now));
            && Inv(s') && SweepsTrack(s') && s'.procs == s.procs && WorkLeft(s') == WorkLeft(s)
  {
    var s' := Act(s, Tick(now));
    ActKeepsInv(s, Tick(now));
    SweepsTrackAct(s, Tick(now));
    assert (set t | t in s'.procs && Awake(s', t)) == (set t | t in s.procs && Awake(s, t));
  }

  predicate Works(s: State, a: Action) {
    a.Tick? || (a.Step? && a.t in s.procs && Busy(s.procs[a.t]))
  }

  /** A step of a busy thread leaves less work; time passing leaves the work as it was. */
  lemma WorkingAct(s: State, a: Action)
    requires Possible(s, a) && Works(s, a) && Inv(s) && SweepsTrack(s)
    ensures Inv(Act(s, a)) && SweepsTrack(Act(s, a))
    ensures a.Step? ==> Less(WorkLeft(Act(s, a)), WorkLeft(s))
    ensures a.Tick? ==> WorkLeft(Act(s, a)) == WorkLeft(s)
  {
    ActKeepsInv(s, a);
    SweepsTrackAct(s, a);
    if a.Step? {
      StepDescends(s, a.t, a.c);
    } else {
      TickLeavesWork(s, a.now);
    }
  }

  /**
   An endless run in which, from some point on, no request arrives and the reaper
   begins no new sweep. Time may pass between steps, but there is always one more step.
   */
  ghost predicate EndlessWork(states: nat -> State, actions: nat -> Action) {
    forall i: nat :: WorksAt(states, actions, i) && StepFollows(actions, i)
  }

  ghost predicate WorksAt(states: nat -> State, actions: nat -> Action, i: nat) {
    && Possible(states(i), actions(i)) && states(i + 1) == Act(states(i), actions(i))
    && Works(states(i), actions(i))
  }

  ghost predicate StepFollows(actions: nat -> Action, i: nat) {
    exists j: nat :: i <= j && actions(j).Step?
  }

  lemma SoundNext(states: nat -> State, actions: nat -> Action, i: nat)
    requires WorksAt(states, actions, i) && Inv(states(i)) && SweepsTrack(states(i))
    ensures Inv(states(i + 1)) && SweepsTrack(states(i + 1))
  {
    WorkingAct(states(i), actions(i));
  }

  lemma SoundAt(states: nat -> State, actions: nat -> Action, i: nat)
    requires EndlessWork(states, actions) && Inv(states(0)) && SweepsTrack(states(0))
    ensures Inv(states(i)) && SweepsTrack(states(i))
  {
    var sound := (k: nat) => Inv(states(k)) && SweepsTrack(states(k));
    forall k: nat ensures Carries(sound, k) {
      assert WorksAt(states, actions, k);
      if sound(k) {
        SoundNext(states, actions, k);
      }
    }
    Always(sound, i);
  }

  ghost predicate Falls(left: nat -> Left, steps: nat -> bool, i: nat) {
    if steps(i) then Less(left(i + 1), left(i)) else left(i + 1) == left(i)
  }

  ghost predicate FallsAgain(steps: nat -> bool, i: nat) {
    exists j: nat :: i <= j && steps(j)
  }

  /** Nothing falls again and again for ever. */
  lemma {:induction false} NoEndlessFall(left: nat -> Left, steps: nat -> bool, i: nat, next: nat)
    requires forall k: nat :: Falls(left, steps, k) && FallsAgain(steps, k)
    requires i <= next && steps(next)
    ensures false
    decreases left(i).unlisted, left(i).work, left(i).awake, next - i
  {
    assert Falls(left, steps, i);
    if steps(i) {
      assert FallsAgain(steps, i + 1);
      var later: nat :| i + 1 <= later && steps(later);
      NoEndlessFall(left, steps, i + 1, later);
    } else {
      NoEndlessFall(left, steps, i + 1, next);
    }
  }

  lemma WorkFalls(states: nat -> State, actions: nat -> Action, i: nat)
    requires EndlessWork(states, actions) && Inv(states(0)) && SweepsTrack(states(0))
    ensures if actions(i).Step? then Less(WorkLeft(states(i + 1)), WorkLeft(states(i)))
            else WorkLeft(states(i + 1)) == WorkLeft(states(i))
  {
    SoundAt(states, actions, i);
    assert WorksAt(states, actions, i);
    WorkingAct(states(i), actions(i));
  }

  /**
   No livelock: after any run, if no further request arrives and the reaper begins
   no new sweep, the threads cannot keep stepping for ever, however time passes
   meanwhile. With SomeoneCanWork, every such continuation ends with all requests
   finished.
   */
  lemma NoEndlessWork(trace: seq<State>, before: seq<Action>, states: nat -> State, actions: nat -> Action)
    requires Execution(trace, before) && trace[|before|] == states(0)
    ensures !EndlessWork(states, actions)
  {
    ExecutionInv(trace, before, |before|);
    SweepsTrackInRun(trace, before, |before|);
    if EndlessWork(states, actions) {
      var left := (i: nat) => WorkLeft(states(i));
      var steps := (i: nat) => actions(i).Step?;
      forall i: nat ensures Falls(left, steps, i) && FallsAgain(steps, i) {
        WorkFalls(states, actions, i);
        assert StepFollows(actions, i);
        var j: nat :| i <= j && actions(j).Step?;
        assert steps(j);
      }
      assert FallsAgain(steps, 0);
      var first: nat :| steps(first);
      NoEndlessFall(left, steps, 0, first);
    }
  }
}
