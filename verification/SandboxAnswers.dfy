/**
 What the answer of a request means: over any run, whatever runs beside it, a
 handler that reports success has done its work in steps of its own, and one
 that reports failure met a reason for it and left the inventory as it was.
 */
module SandboxAnswers {
  import opened Prelude
  import opened SandboxState
  import opened SandboxProtocol
  import opened SandboxInvariants
  import opened SandboxSafety
  import opened SandboxFencing

  // ------------------------------------------------------------ what a step shows

  /** What can be seen of one step, in the memory before and after it and in the environment's choice. */
  datatype Fact =
    | MemoryChanged
    | InventoryChanged
    | ActivityChanged
    | GateClosed
    | Stored(id: SandboxId, workdir: Option<string>, generation: Generation)
    | Reused(id: SandboxId, workdir: Option<string>, generation: Generation)
    | OtherWorkdir(id: SandboxId, workdir: Option<string>)
    | Found(id: SandboxId, generation: Generation)
    | Missing(id: SandboxId)
    | Refreshed(id: SandboxId, generation: Generation)
    | Removed(id: SandboxId, fence: Option<Generation>)
    | Differs(id: SandboxId, fence: Option<Generation>)
    | Forgotten(id: SandboxId, fence: Option<Generation>)
    | CallFails(id: SandboxId)
    | ListingFails
    | ListedEmpty
    | JoinFails
    | ClockRead(cutoff: int)
    | FoundIdle(e: Expired, cutoff: int)
    | FoundBusy(e: Expired, cutoff: int)

  predicate Tells(f: Fact, m: Memory, pc: Pc, c: Choice, m': Memory) {
    match f
    case MemoryChanged => m' != m
    case InventoryChanged => m'.records != m.records
    case ActivityChanged => m'.activity != m.activity
    case GateClosed => m.gate.started
    case Stored(id, workdir, g) =>
      && pc.CreateRun? && id !in m.records && g !in m.issued
      && m'.records == m.records[id := Record(g, workdir)]
    case Reused(id, workdir, g) =>
      && pc.CreateRun? && id in m.records && m.records[id] == Record(g, workdir)
      && m'.records == m.records
    case OtherWorkdir(id, workdir) => pc.CreateRun? && id in m.records && m.records[id].workdir != workdir
    case Found(id, g) => pc.VisitDiscover? && id in m.records && m.records[id].generation == g
    case Missing(id) => pc.VisitDiscover? && id !in m.records
    case Refreshed(id, g) => m'.activity == m.activity[id := Seen(Some(g), m.now)]
    case Removed(id, fence) =>
      && pc.DeleteErase? && m'.records == m.records - {id}
      && (id in m.records && IsToken(fence) ==> m.records[id].generation == fence.value)
    case Differs(id, fence) =>
      pc.DeleteErase? && id in m.records && IsToken(fence) && m.records[id].generation != fence.value
    case Forgotten(id, fence) =>
      && (pc.DeleteForget? || pc.ReapForget?)
      && m'.activity == if id in m.activity && fence.Some? && m.activity[id].generation != fence then m.activity
                        else m.activity - {id}
    case CallFails(id) =>
      c.fails && (pc.CreateRun? || pc.VisitDiscover? || (pc.VisitTouch? && pc.proxy) || pc.DeleteErase?) && pc.id == id
    case ListingFails => c.fails && pc.QuiesceList?
    case ListedEmpty => pc.QuiesceList? && m.records == map[]
    case JoinFails => c.fails && pc.QuiesceJoin?
    case ClockRead(cutoff) => pc.ReapClock? && cutoff == m.now - m.idle
    case FoundIdle(e, cutoff) =>
      pc.ReapCheck? && e.id in m.activity && m.activity[e.id].generation == e.generation &&
        m.activity[e.id].at <= cutoff
    case FoundBusy(e, cutoff) =>
      && pc.ReapCheck?
      && (e.id in m.activity && m.activity[e.id].generation == e.generation ==> m.activity[e.id].at > cutoff)
  }

  ghost function Now(m: Memory, pc: Pc, c: Choice, m': Memory): iset<Fact> {
    iset f: Fact | Tells(f, m, pc, c, m')
  }

  // ------------------------------------------------------------ the story of each handler

  /** What a create for this id and workdir has been through when it stands at pc. */
  ghost predicate CreateStory(id: SandboxId, workdir: Option<string>, pc: Pc, past: iset<Fact>) {
    match pc
    case CreateEnter(_, _) => pc == CreateEnter(id, workdir) && past == iset{}
    case CreateAcquire(_, _) => pc == CreateAcquire(id, workdir) && InventoryChanged !in past
    case CreateRun(_, _) => pc == CreateRun(id, workdir) && InventoryChanged !in past
    case CreateRelease(_, made) => pc.id == id && CreateResult(id, workdir, made, past)
    case CreateLeave(_, made) => pc.id == id && CreateResult(id, workdir, made, past)
    case CreateTouch(_, g) => pc.id == id && CreateResult(id, workdir, Some(g), past)
    case Finished(outcome) => CreateVerdict(id, workdir, outcome, past)
    case _ => false
  }

  ghost predicate CreateResult(id: SandboxId, workdir: Option<string>, made: Option<Generation>, past: iset<Fact>) {
    match made
    case Some(g) => Stored(id, workdir, g) in past || Reused(id, workdir, g) in past
    case None => InventoryChanged !in past && (OtherWorkdir(id, workdir) in past || CallFails(id) in past)
  }

  ghost predicate CreateVerdict(id: SandboxId, workdir: Option<string>, outcome: Outcome, past: iset<Fact>) {
    match outcome
    case Done =>
      exists g :: Refreshed(id, g) in past && (Stored(id, workdir, g) in past || Reused(id, workdir, g) in past)
    case Failed => InventoryChanged !in past && (OtherWorkdir(id, workdir) in past || CallFails(id) in past)
    case Refused => MemoryChanged !in past && GateClosed in past
    case _ => false
  }

  ghost predicate VisitStory(id: SandboxId, proxy: bool, pc: Pc, past: iset<Fact>) {
    InventoryChanged !in past &&
    match pc
    case VisitAcquire(_, _) => pc == VisitAcquire(id, proxy) && ActivityChanged !in past
    case VisitDiscover(_, _) => pc == VisitDiscover(id, proxy) && ActivityChanged !in past
    case VisitTouch(_, g, _) => pc == VisitTouch(id, g, proxy) && Found(id, g) in past && ActivityChanged !in past
    case VisitRelease(_, ok) => pc.id == id && VisitVerdict(id, ok, past)
    case Finished(outcome) => (outcome.Done? || outcome.Failed?) && VisitVerdict(id, outcome.Done?, past)
    case _ => false
  }

  ghost predicate VisitVerdict(id: SandboxId, ok: bool, past: iset<Fact>) {
    if ok then exists g :: Found(id, g) in past && Refreshed(id, g) in past
    else ActivityChanged !in past && (Missing(id) in past || CallFails(id) in past)
  }

  /** The story of a delete on behalf of a request or of a quiescence worker. */
  ghost predicate DeleteStory(who: Owner, id: SandboxId, fence: Option<Generation>, pc: Pc, past: iset<Fact>) {
    match pc
    case DeleteBegin(_, _, _) => pc == DeleteBegin(who, id, fence) && past == iset{}
    case DeleteDrain(_, _, _) => pc == DeleteDrain(who, id, fence) && InventoryChanged !in past
    case DeleteErase(_, _, _) => pc == DeleteErase(who, id, fence) && InventoryChanged !in past
    case DeleteEnd(_, _, _, result) => pc == DeleteEnd(who, id, fence, result) && Erasing(id, fence, result, past)
    case DeleteForget(_, _, _) => pc == DeleteForget(who, id, fence) && Removed(id, fence) in past
    case Finished(outcome) => DeleteVerdict(who, id, fence, outcome, past)
    case _ => false
  }

  ghost predicate Erasing(id: SandboxId, fence: Option<Generation>, result: Erasure, past: iset<Fact>) {
    match result
    case Erased => Removed(id, fence) in past
    case Mismatch => Differs(id, fence) in past && InventoryChanged !in past
    case Broken => CallFails(id) in past && InventoryChanged !in past
    case Skipped => false
  }

  ghost predicate DeleteVerdict(who: Owner, id: SandboxId, fence: Option<Generation>, outcome: Outcome,
                                past: iset<Fact>) {
    match outcome
    case Done => who.Request? && Removed(id, fence) in past && Forgotten(id, fence) in past
    case Failed =>
      who.Request? && InventoryChanged !in past && (Differs(id, fence) in past || CallFails(id) in past)
    case WorkerDone =>
      && who.Worker?
      && ((Removed(id, fence) in past && Forgotten(id, fence) in past) ||
          (InventoryChanged !in past && Differs(id, fence) in past))
    case WorkerFailed(i) => who.Worker? && i == id && InventoryChanged !in past && CallFails(id) in past
    case Cancelled(i) => who.Worker? && i == id && MemoryChanged !in past
    case _ => false
  }

  ghost predicate SweepStory(pc: Pc, past: iset<Fact>) {
    InventoryChanged !in past &&
    match pc
    case QuiesceBegin => true
    case QuiesceDrain => true
    case QuiesceList(_) => true
    case QuiesceJoin(_, _) => true
    case Finished(outcome) =>
      || (outcome.Swept? && ListedEmpty in past)
      || (outcome.SweepFailed? && (ListingFails in past || JoinFails in past))
    case _ => false
  }

  /** A deletion of the reaper has come to its end: erased as idle, or found to be in use, different or failing. */
  ghost predicate Handled(e: Expired, past: iset<Fact>) {
    exists cutoff ::
      && ClockRead(cutoff) in past
      && (FoundBusy(e, cutoff) in past ||
          (FoundIdle(e, cutoff) in past &&
           ((Removed(e.id, e.generation) in past && Forgotten(e.id, e.generation) in past) ||
            Differs(e.id, e.generation) in past || CallFails(e.id) in past)))
  }

  /** What the reaper has still to look at, in order. */
  function Ahead(pc: Pc): seq<Expired> {
    if pc.ReapScan? then pc.queue
    else if DeletePc(pc) && pc.who.Reaper? then
      (if pc.DeleteEnd? then [] else [Expired(pc.id, pc.fence)]) + pc.who.rest
    else []
  }

  /** What the reaper knows of the deletion it is in. */
  ghost predicate ReapKnows(pc: Pc, past: iset<Fact>) {
    && (pc.ReapScan? || (DeletePc(pc) && pc.who.Reaper? && !pc.DeleteForget?))
    && (pc.ReapCheck? ==> ClockRead(pc.who.cutoff) in past)
    && (pc.DeleteErase? || pc.ReapForget? ==>
          ClockRead(pc.who.cutoff) in past && FoundIdle(Expired(pc.id, pc.fence), pc.who.cutoff) in past)
    && (pc.ReapForget? ==> Removed(pc.id, pc.fence) in past)
  }

  /** A sweep of the reaper through a queue: what it is past is handled, and the rest is ahead. */
  ghost predicate ReapStory(queue: seq<Expired>, pc: Pc, past: iset<Fact>) {
    ReapKnows(pc, past) && Progress(queue, Ahead(pc), past)
  }

  ghost predicate Progress(queue: seq<Expired>, ahead: seq<Expired>, past: iset<Fact>) {
    && |ahead| <= |queue| && ahead == queue[|queue| - |ahead|..]
    && forall i :: 0 <= i < |queue| - |ahead| ==> Handled(queue[i], past)
  }

  // ------------------------------------------------------------ one move

  lemma CreateRunMove(m: Memory, pc: Pc, t: Thread, c: Choice, id: SandboxId, workdir: Option<string>,
                      past: iset<Fact>)
    requires pc.CreateRun? && CreateStory(id, workdir, pc, past) && SaneChoice(m, pc, c)
    ensures var e := MoveCreate(m, pc, t, c);
            CreateStory(id, workdir, e.next, past + Now(m, pc, c, e.mem))
  {
  }

  lemma CreateMove(m: Memory, pc: Pc, t: Thread, c: Choice, id: SandboxId, workdir: Option<string>, past: iset<Fact>)
    requires CreatePc(pc) && CreateStory(id, workdir, pc, past) && SaneChoice(m, pc, c)
    ensures var e := MoveCreate(m, pc, t, c);
            CreateStory(id, workdir, e.next, past + Now(m, pc, c, e.mem))
  {
    if pc.CreateRun? {
      CreateRunMove(m, pc, t, c, id, workdir, past);
    }
  }

  lemma VisitMove(m: Memory, pc: Pc, t: Thread, c: Choice, id: SandboxId, proxy: bool, past: iset<Fact>)
    requires VisitPc(pc) && VisitStory(id, proxy, pc, past)
    ensures var e := MoveVisit(m, pc, t, c);
            VisitStory(id, proxy, e.next, past + Now(m, pc, c, e.mem))
  {
  }

  lemma DrainMove(m: Memory, pc: Pc, t: Thread, c: Choice, who: Owner, id: SandboxId, fence: Option<Generation>,
                  past: iset<Fact>)
    requires (pc.DeleteBegin? || pc.DeleteDrain?) && DeleteStory(who, id, fence, pc, past) && !who.Reaper?
    ensures var e := MoveDelete(m, pc, t, c);
            DeleteStory(who, id, fence, e.next, past + Now(m, pc, c, e.mem))
  {
  }

  lemma EraseMove(m: Memory, pc: Pc, t: Thread, c: Choice, who: Owner, id: SandboxId, fence: Option<Generation>,
                  past: iset<Fact>)
    requires pc.DeleteErase? && DeleteStory(who, id, fence, pc, past) && !who.Reaper?
    ensures var e := MoveDelete(m, pc, t, c);
            DeleteStory(who, id, fence, e.next, past + Now(m, pc, c, e.mem))
  {
  }

  lemma EndMove(m: Memory, pc: Pc, t: Thread, c: Choice, who: Owner, id: SandboxId, fence: Option<Generation>,
                past: iset<Fact>)
    requires (pc.DeleteEnd? || pc.DeleteForget?) && DeleteStory(who, id, fence, pc, past) && !who.Reaper?
    ensures var e := MoveDelete(m, pc, t, c);
            DeleteStory(who, id, fence, e.next, past + Now(m, pc, c, e.mem))
  {
  }

  lemma DeleteMove(m: Memory, pc: Pc, t: Thread, c: Choice, who: Owner, id: SandboxId, fence: Option<Generation>,
                   past: iset<Fact>)
    requires DeletePc(pc) && DeleteStory(who, id, fence, pc, past) && !who.Reaper?
    ensures var e := MoveDelete(m, pc, t, c);
            DeleteStory(who, id, fence, e.next, past + Now(m, pc, c, e.mem))
  {
    if pc.DeleteBegin? || pc.DeleteDrain? {
      DrainMove(m, pc, t, c, who, id, fence, past);
    } else if pc.DeleteErase? {
      EraseMove(m, pc, t, c, who, id, fence, past);
    } else {
      EndMove(m, pc, t, c, who, id, fence, past);
    }
  }

  lemma SweepMove(m: Memory, pc: Pc, t: Thread, c: Choice, past: iset<Fact>)
    requires SweepPc(pc) && !pc.ReapScan? && !pc.Finished? && SweepStory(pc, past)
    ensures var e := MoveSweep(m, pc, t, c);
            SweepStory(e.next, past + Now(m, pc, c, e.mem))
  {
  }

  lemma HandledLater(e: Expired, past: iset<Fact>, more: iset<Fact>)
    requires Handled(e, past)
    ensures Handled(e, past + more)
  {
    var cutoff :|
      && ClockRead(cutoff) in past
      && (FoundBusy(e, cutoff) in past ||
          (FoundIdle(e, cutoff) in past &&
           ((Removed(e.id, e.generation) in past && Forgotten(e.id, e.generation) in past) ||
            Differs(e.id, e.generation) in past || CallFails(e.id) in past)));
    assert ClockRead(cutoff) in past + more;
  }

  /** What stays ahead after a move, and what is handled by it. */
  lemma AheadMoves(queue: seq<Expired>, ahead: seq<Expired>, next: seq<Expired>, past: iset<Fact>, more: iset<Fact>)
    requires Progress(queue, ahead, past)
    requires next == ahead || (ahead != [] && next == ahead[1..] && Handled(ahead[0], past + more))
    ensures Progress(queue, next, past + more)
  {
    forall i | 0 <= i < |queue| - |ahead| ensures Handled(queue[i], past + more) {
      HandledLater(queue[i], past, more);
    }
  }

  lemma ReapFindsBusy(m: Memory, pc: Pc, t: Thread, c: Choice, past: iset<Fact>)
    requires ReapKnows(pc, past) && pc.ReapCheck?
    ensures var e := MoveDelete(m, pc, t, c);
            e.next.DeleteEnd? ==> Handled(Expired(pc.id, pc.fence), past + Now(m, pc, c, e.mem))
  {
    var e := MoveDelete(m, pc, t, c);
    assert ClockRead(pc.who.cutoff) in past + Now(m, pc, c, e.mem);
  }

  lemma ReapErases(m: Memory, pc: Pc, t: Thread, c: Choice, past: iset<Fact>)
    requires ReapKnows(pc, past) && (pc.DeleteErase? || pc.ReapForget?)
    ensures var e := MoveDelete(m, pc, t, c);
            e.next.DeleteEnd? ==> Handled(Expired(pc.id, pc.fence), past + Now(m, pc, c, e.mem))
  {
    var e := MoveDelete(m, pc, t, c);
    assert ClockRead(pc.who.cutoff) in past + Now(m, pc, c, e.mem);
  }

  /** A deletion that ends leaves the rest of the queue ahead; any other move leaves what is ahead as it is. */
  predicate AheadFollows(pc: Pc, next: Pc) {
    && (next.DeleteEnd? ==> pc.ReapCheck? || pc.DeleteErase? || pc.ReapForget?)
    && if next.DeleteEnd? then Ahead(pc) == [Expired(pc.id, pc.fence)] + Ahead(next) else Ahead(next) == Ahead(pc)
  }

  lemma ScanAhead(m: Memory, pc: Pc, t: Thread, c: Choice)
    requires pc.ReapScan? && pc.queue != []
    ensures AheadFollows(pc, Move(m, pc, t, c).next)
  {
  }

  lemma DrainAhead(m: Memory, pc: Pc, t: Thread, c: Choice, past: iset<Fact>)
    requires ReapKnows(pc, past) && (pc.DeleteBegin? || pc.DeleteDrain? || pc.ReapClock? || pc.DeleteEnd?)
    ensures AheadFollows(pc, Move(m, pc, t, c).next)
  {
  }

  lemma EraseAhead(m: Memory, pc: Pc, t: Thread, c: Choice, past: iset<Fact>)
    requires ReapKnows(pc, past) && (pc.ReapCheck? || pc.DeleteErase? || pc.ReapForget?)
    ensures AheadFollows(pc, Move(m, pc, t, c).next)
  {
  }

  lemma ReapAhead(m: Memory, pc: Pc, t: Thread, c: Choice, past: iset<Fact>)
    requires ReapKnows(pc, past) && pc != ReapScan([])
    ensures AheadFollows(pc, Move(m, pc, t, c).next)
  {
    if pc.ReapScan? {
      ScanAhead(m, pc, t, c);
    } else if pc.ReapCheck? || pc.DeleteErase? || pc.ReapForget? {
      EraseAhead(m, pc, t, c, past);
    } else {
      DrainAhead(m, pc, t, c, past);
    }
  }

  lemma ScanLearns(m: Memory, pc: Pc, t: Thread, c: Choice, past: iset<Fact>)
    requires pc.ReapScan? && pc.queue != []
    ensures var e := Move(m, pc, t, c);
            ReapKnows(e.next, past + Now(m, pc, c, e.mem))
  {
  }

  lemma DrainLearns(m: Memory, pc: Pc, t: Thread, c: Choice, past: iset<Fact>)
    requires ReapKnows(pc, past) && (pc.DeleteBegin? || pc.DeleteDrain? || pc.ReapClock? || pc.DeleteEnd?)
    ensures var e := Move(m, pc, t, c);
            ReapKnows(e.next, past + Now(m, pc, c, e.mem))
  {
  }

  lemma EraseLearns(m: Memory, pc: Pc, t: Thread, c: Choice, past: iset<Fact>)
    requires ReapKnows(pc, past) && (pc.ReapCheck? || pc.DeleteErase? || pc.ReapForget?)
    ensures var e := Move(m, pc, t, c);
            ReapKnows(e.next, past + Now(m, pc, c, e.mem))
  {
  }

  lemma ReapLearns(m: Memory, pc: Pc, t: Thread, c: Choice, past: iset<Fact>)
    requires ReapKnows(pc, past) && pc != ReapScan([])
    ensures var e := Move(m, pc, t, c);
            ReapKnows(e.next, past + Now(m, pc, c, e.mem))
  {
    if pc.ReapScan? {
      ScanLearns(m, pc, t, c, past);
    } else if pc.ReapCheck? || pc.DeleteErase? || pc.ReapForget? {
      EraseLearns(m, pc, t, c, past);
    } else {
      DrainLearns(m, pc, t, c, past);
    }
  }

  lemma ReapMove(m: Memory, pc: Pc, t: Thread, c: Choice, queue: seq<Expired>, past: iset<Fact>)
    requires ReapStory(queue, pc, past) && pc != ReapScan([])
    ensures var e := Move(m, pc, t, c);
            ReapStory(queue, e.next, past + Now(m, pc, c, e.mem))
  {
    var e := Move(m, pc, t, c);
    ReapAhead(m, pc, t, c, past);
    ReapLearns(m, pc, t, c, past);
    if pc.ReapCheck? {
      ReapFindsBusy(m, pc, t, c, past);
    } else if pc.DeleteErase? || pc.ReapForget? {
      ReapErases(m, pc, t, c, past);
    }
    AheadMoves(queue, Ahead(pc), Ahead(e.next), past, Now(m, pc, c, e.mem));
  }

  // ------------------------------------------------------------ along a run

  ghost predicate Shows(trace: seq<State>, actions: seq<Action>, k: nat, t: Thread, f: Fact)
    requires k < |actions| == |trace| - 1
  {
    && actions[k].Step? && actions[k].t == t && t in trace[k].procs
    && Tells(f, trace[k].mem, trace[k].procs[t], actions[k].c, trace[k + 1].mem)
  }

  /** From state a to state j some step of thread t showed the fact. */
  ghost predicate Did(trace: seq<State>, actions: seq<Action>, a: nat, j: nat, t: Thread, f: Fact)
    requires a <= j <= |actions| == |trace| - 1
  {
    exists k: nat :: a <= k < j && Shows(trace, actions, k, t, f)
  }

  ghost function Past(trace: seq<State>, actions: seq<Action>, a: nat, j: nat, t: Thread): iset<Fact>
    requires a <= j <= |actions| == |trace| - 1
  {
    iset f: Fact | Did(trace, actions, a, j, t, f)
  }

  lemma PastMore(trace: seq<State>, actions: seq<Action>, a: nat, h: nat, j: nat, t: Thread)
    requires a <= h < j == h + 1 <= |actions| == |trace| - 1
    requires actions[h].Step? && actions[h].t == t ==> t in trace[h].procs
    ensures Past(trace, actions, a, j, t) ==
            if actions[h].Step? && actions[h].t == t
            then Past(trace, actions, a, h, t) + Now(trace[h].mem, trace[h].procs[t], actions[h].c, trace[j].mem)
            else Past(trace, actions, a, h, t)
  {
    forall f
      ensures Did(trace, actions, a, j, t, f) <==> Did(trace, actions, a, h, t, f) || Shows(trace, actions, h, t, f)
    {
      if Did(trace, actions, a, j, t, f) {
        var k: nat :| a <= k < j && Shows(trace, actions, k, t, f);
        assert k < h || k == h;
      }
    }
  }

  /** Every move of thread t that does not begin at a stop keeps the story. */
  ghost predicate Follows(story: (Pc, iset<Fact>) -> bool, stops: Pc -> bool, t: Thread, m: Memory, pc: Pc, c: Choice,
                          past: iset<Fact>) {
    story(pc, past) && !stops(pc) && !pc.Finished? && SaneChoice(m, pc, c) ==>
      story(Move(m, pc, t, c).next, past + Now(m, pc, c, Move(m, pc, t, c).mem))
  }

  lemma PcMoves(s: State, a: Action, t: Thread)
    requires Possible(s, a) && t in s.procs
    ensures t in Act(s, a).procs
    ensures if a.Step? && a.t == t
            then !s.procs[t].Finished? && SaneChoice(s.mem, s.procs[t], a.c) &&
                 Act(s, a).procs[t] == Move(s.mem, s.procs[t], t, a.c).next &&
                 Act(s, a).mem == Move(s.mem, s.procs[t], t, a.c).mem
            else Act(s, a).procs[t] == s.procs[t]
  {
    if a.Step? {
      RunSteps(s, a.t, a.c);
      EnabledIsSane(s, a.t, a.c);
    }
  }

  /** Where a thread's story is kept by its moves, it holds as long as the thread does not move on from a stop. */
  lemma {:induction false} StoryInRun(trace: seq<State>, actions: seq<Action>, a: nat, j: nat, t: Thread,
                                      story: (Pc, iset<Fact>) -> bool, stops: Pc -> bool)
    requires Execution(trace, actions) && a <= j < |trace| && t in trace[a].procs && story(trace[a].procs[t], iset{})
    requires forall m, pc, c, past :: Follows(story, stops, t, m, pc, c, past)
    requires forall l :: a <= l < j && t in trace[l].procs ==> !stops(trace[l].procs[t])
    ensures t in trace[j].procs && story(trace[j].procs[t], Past(trace, actions, a, j, t))
    decreases j
  {
    if j == a {
      assert Past(trace, actions, a, j, t) == iset{};
    } else {
      var h: nat := j - 1;
      StoryInRun(trace, actions, a, h, t, story, stops);
      assert Possible(trace[h], actions[h]) && trace[j] == Act(trace[h], actions[h]);
      PcMoves(trace[h], actions[h], t);
      PastMore(trace, actions, a, h, j, t);
      if actions[h].Step? && actions[h].t == t {
        assert Follows(story, stops, t, trace[h].mem, trace[h].procs[t], actions[h].c, Past(trace, actions, a, h, t));
      }
    }
  }

  predicate NoStop(pc: Pc) {
    false
  }

  lemma CreateInRun(trace: seq<State>, actions: seq<Action>, a: nat, j: nat, t: Thread, id: SandboxId,
                    workdir: Option<string>)
    requires Execution(trace, actions) && a <= j < |trace|
    requires t in trace[a].procs && trace[a].procs[t] == CreateEnter(id, workdir)
    ensures t in trace[j].procs && CreateStory(id, workdir, trace[j].procs[t], Past(trace, actions, a, j, t))
  {
    var story := (pc, past) => CreateStory(id, workdir, pc, past);
    forall m, pc, c, past ensures Follows(story, NoStop, t, m, pc, c, past) {
      if story(pc, past) && !pc.Finished? && SaneChoice(m, pc, c) {
        CreateMove(m, pc, t, c, id, workdir, past);
      }
    }
    StoryInRun(trace, actions, a, j, t, story, NoStop);
  }

  lemma VisitInRun(trace: seq<State>, actions: seq<Action>, a: nat, j: nat, t: Thread, id: SandboxId, proxy: bool)
    requires Execution(trace, actions) && a <= j < |trace|
    requires t in trace[a].procs && trace[a].procs[t] == VisitAcquire(id, proxy)
    ensures t in trace[j].procs && VisitStory(id, proxy, trace[j].procs[t], Past(trace, actions, a, j, t))
  {
    var story := (pc, past) => VisitStory(id, proxy, pc, past);
    forall m, pc, c, past ensures Follows(story, NoStop, t, m, pc, c, past) {
      if story(pc, past) && !pc.Finished? {
        VisitMove(m, pc, t, c, id, proxy, past);
      }
    }
    StoryInRun(trace, actions, a, j, t, story, NoStop);
  }

  lemma DeleteInRun(trace: seq<State>, actions: seq<Action>, a: nat, j: nat, t: Thread, who: Owner, id: SandboxId,
                    fence: Option<Generation>)
    requires Execution(trace, actions) && a <= j < |trace| && !who.Reaper?
    requires t in trace[a].procs && trace[a].procs[t] == DeleteBegin(who, id, fence)
    ensures t in trace[j].procs && DeleteStory(who, id, fence, trace[j].procs[t], Past(trace, actions, a, j, t))
  {
    var story := (pc, past) => DeleteStory(who, id, fence, pc, past);
    forall m, pc, c, past ensures Follows(story, NoStop, t, m, pc, c, past) {
      if story(pc, past) && !pc.Finished? {
        DeleteMove(m, pc, t, c, who, id, fence, past);
      }
    }
    StoryInRun(trace, actions, a, j, t, story, NoStop);
  }

  lemma SweepInRun(trace: seq<State>, actions: seq<Action>, a: nat, j: nat, t: Thread)
    requires Execution(trace, actions) && a <= j < |trace| && t in trace[a].procs && trace[a].procs[t].QuiesceBegin?
    ensures t in trace[j].procs && SweepStory(trace[j].procs[t], Past(trace, actions, a, j, t))
  {
    forall m, pc, c, past ensures Follows(SweepStory, NoStop, t, m, pc, c, past) {
      if SweepStory(pc, past) && !pc.Finished? {
        SweepMove(m, pc, t, c, past);
      }
    }
    StoryInRun(trace, actions, a, j, t, SweepStory, NoStop);
  }

  // ------------------------------------------------------------ what the answers mean

  /**
   A finished create. Done: it stored a fresh record of the id and workdir asked for,
   or found one, and refreshed that generation's activity. Failed: the backend failed
   or the sandbox has another workdir, and no record was changed. Refused: the gate
   was closed, and nothing at all was changed.
   */
  lemma CreateAnswers(trace: seq<State>, actions: seq<Action>, a: nat, j: nat, t: Thread)
    requires Execution(trace, actions) && a <= j < |trace| && t in trace[a].procs && trace[a].procs[t].CreateEnter?
    ensures t in trace[j].procs
    ensures var id, workdir, end := trace[a].procs[t].id, trace[a].procs[t].workdir, trace[j].procs[t];
            end.Finished? ==>
              match end.outcome
              case Done =>
                exists g ::
                  && Did(trace, actions, a, j, t, Refreshed(id, g))
                  && (Did(trace, actions, a, j, t, Stored(id, workdir, g)) ||
                      Did(trace, actions, a, j, t, Reused(id, workdir, g)))
              case Failed =>
                && !Did(trace, actions, a, j, t, InventoryChanged)
                && (Did(trace, actions, a, j, t, OtherWorkdir(id, workdir)) ||
                    Did(trace, actions, a, j, t, CallFails(id)))
              case Refused =>
                !Did(trace, actions, a, j, t, MemoryChanged) && Did(trace, actions, a, j, t, GateClosed)
              case _ => false
  {
    var id, workdir := trace[a].procs[t].id, trace[a].procs[t].workdir;
    CreateInRun(trace, actions, a, j, t, id, workdir);
    var past := Past(trace, actions, a, j, t);
    if trace[j].procs[t] == Finished(Done) {
      var g :| Refreshed(id, g) in past && (Stored(id, workdir, g) in past || Reused(id, workdir, g) in past);
      assert Did(trace, actions, a, j, t, Refreshed(id, g));
    }
  }

  /**
   A finished get, touch or proxy request. Done: there was a record of the id, and its
   generation's activity was refreshed. Failed: there was none, or the backend or the
   proxied request failed, and nothing was refreshed. No record is changed in any case.
   */
  lemma VisitAnswers(trace: seq<State>, actions: seq<Action>, a: nat, j: nat, t: Thread)
    requires Execution(trace, actions) && a <= j < |trace| && t in trace[a].procs && trace[a].procs[t].VisitAcquire?
    ensures t in trace[j].procs && !Did(trace, actions, a, j, t, InventoryChanged)
    ensures var id, end := trace[a].procs[t].id, trace[j].procs[t];
            end.Finished? ==>
              match end.outcome
              case Done =>
                exists g :: Did(trace, actions, a, j, t, Found(id, g)) && Did(trace, actions, a, j, t, Refreshed(id, g))
              case Failed =>
                && !Did(trace, actions, a, j, t, ActivityChanged)
                && (Did(trace, actions, a, j, t, Missing(id)) || Did(trace, actions, a, j, t, CallFails(id)))
              case _ => false
  {
    var id := trace[a].procs[t].id;
    VisitInRun(trace, actions, a, j, t, id, trace[a].procs[t].proxy);
    var past := Past(trace, actions, a, j, t);
    if trace[j].procs[t] == Finished(Done) {
      var g :| Found(id, g) in past && Refreshed(id, g) in past;
      assert Did(trace, actions, a, j, t, Found(id, g));
    }
  }

  /** At step k the id's record is taken out, if there is one; its generation is gone from then on. */
  ghost predicate RemovedForGood(trace: seq<State>, actions: seq<Action>, k: nat, t: Thread, id: SandboxId,
                                 fence: Option<Generation>)
    requires k < |actions| == |trace| - 1
  {
    && Shows(trace, actions, k, t, Removed(id, fence)) && id !in trace[k + 1].mem.records
    && (id in trace[k].mem.records ==>
          forall l :: k < l < |trace| ==> Gone(trace[l].mem, trace[k].mem.records[id].generation))
  }

  lemma RemovedIsGone(trace: seq<State>, actions: seq<Action>, k: nat, t: Thread, id: SandboxId,
                      fence: Option<Generation>)
    requires Execution(trace, actions) && k < |actions| && Shows(trace, actions, k, t, Removed(id, fence))
    ensures RemovedForGood(trace, actions, k, t, id, fence)
  {
    if id in trace[k].mem.records {
      var g := trace[k].mem.records[id].generation;
      ExecutionInv(trace, actions, k);
      ExecutionInv(trace, actions, k + 1);
      IssuedStays(trace, actions, k, g);
      forall l | k < l < |trace| ensures Gone(trace[l].mem, g) {
        GoneForever(trace, actions, k + 1, l, g);
      }
    }
  }

  lemma IssuedStays(trace: seq<State>, actions: seq<Action>, k: nat, g: Generation)
    requires Execution(trace, actions) && k < |actions| && g in trace[k].mem.issued
    ensures g in trace[k + 1].mem.issued
  {
    assert Possible(trace[k], actions[k]) && trace[k + 1] == Act(trace[k], actions[k]);
  }

  ghost predicate DidRemove(trace: seq<State>, actions: seq<Action>, a: nat, j: nat, t: Thread, id: SandboxId,
                            fence: Option<Generation>)
    requires a <= j <= |actions| == |trace| - 1
  {
    && (exists k: nat :: a <= k < j && RemovedForGood(trace, actions, k, t, id, fence))
    && Did(trace, actions, a, j, t, Forgotten(id, fence))
  }

  lemma DidRemoveAt(trace: seq<State>, actions: seq<Action>, a: nat, j: nat, t: Thread, id: SandboxId,
                    fence: Option<Generation>)
    requires Execution(trace, actions) && a <= j < |trace|
    requires Did(trace, actions, a, j, t, Removed(id, fence)) && Did(trace, actions, a, j, t, Forgotten(id, fence))
    ensures DidRemove(trace, actions, a, j, t, id, fence)
  {
    var k: nat :| a <= k < j && Shows(trace, actions, k, t, Removed(id, fence));
    RemovedIsGone(trace, actions, k, t, id, fence);
  }

  /**
   A finished delete request. Done: one of its steps left no record of the id, the
   generation that was there is gone for ever, and its activity is forgotten. Failed:
   the sandbox had another generation than the fence or the backend failed, and the
   request changed no record.
   */
  lemma DeleteAnswers(trace: seq<State>, actions: seq<Action>, a: nat, j: nat, t: Thread)
    requires Execution(trace, actions) && a <= j < |trace|
    requires t in trace[a].procs && trace[a].procs[t].DeleteBegin? && trace[a].procs[t].who.Request?
    ensures t in trace[j].procs
    ensures var id, fence, end := trace[a].procs[t].id, trace[a].procs[t].fence, trace[j].procs[t];
            end.Finished? ==>
              match end.outcome
              case Done => DidRemove(trace, actions, a, j, t, id, fence)
              case Failed =>
                && !Did(trace, actions, a, j, t, InventoryChanged)
                && (Did(trace, actions, a, j, t, Differs(id, fence)) || Did(trace, actions, a, j, t, CallFails(id)))
              case _ => false
  {
    var id, fence := trace[a].procs[t].id, trace[a].procs[t].fence;
    DeleteInRun(trace, actions, a, j, t, Request, id, fence);
    if trace[j].procs[t] == Finished(Done) {
      DidRemoveAt(trace, actions, a, j, t, id, fence);
    }
  }

  /** The same for a quiescence worker; it also counts as done if the record it was started for has been replaced. */
  lemma WorkerAnswers(trace: seq<State>, actions: seq<Action>, a: nat, j: nat, t: Thread)
    requires Execution(trace, actions) && a <= j < |trace|
    requires t in trace[a].procs && trace[a].procs[t].DeleteBegin? && trace[a].procs[t].who.Worker?
    ensures t in trace[j].procs
    ensures var id, fence, end := trace[a].procs[t].id, trace[a].procs[t].fence, trace[j].procs[t];
            end.Finished? ==>
              match end.outcome
              case WorkerDone =>
                || DidRemove(trace, actions, a, j, t, id, fence)
                || (!Did(trace, actions, a, j, t, InventoryChanged) &&
                    Did(trace, actions, a, j, t, Differs(id, fence)))
              case WorkerFailed(i) =>
                i == id && !Did(trace, actions, a, j, t, InventoryChanged) &&
                  Did(trace, actions, a, j, t, CallFails(id))
              case Cancelled(i) => i == id && !Did(trace, actions, a, j, t, MemoryChanged)
              case _ => false
  {
    var id, fence := trace[a].procs[t].id, trace[a].procs[t].fence;
    DeleteInRun(trace, actions, a, j, t, trace[a].procs[t].who, id, fence);
    if trace[j].procs[t] == Finished(WorkerDone) && Did(trace, actions, a, j, t, Removed(id, fence)) &&
       Did(trace, actions, a, j, t, Forgotten(id, fence)) {
      DidRemoveAt(trace, actions, a, j, t, id, fence);
    }
  }

  /** At step k a join of the quiescer ends because its time is up or a worker has failed. */
  ghost predicate JoinEnds(trace: seq<State>, actions: seq<Action>, k: nat, t: Thread)
    requires k < |actions| == |trace| - 1
  {
    && actions[k].Step? && actions[k].t == t && t in trace[k].procs && trace[k].procs[t].QuiesceJoin?
    && (actions[k].c.expired ||
        exists w :: w in trace[k].procs[t].workers && w in trace[k].procs && Lost(trace[k].procs[w]))
  }

  lemma JoinFailsWhy(trace: seq<State>, actions: seq<Action>, k: nat, t: Thread)
    requires Execution(trace, actions) && k < |actions| && Shows(trace, actions, k, t, JoinFails)
    ensures JoinEnds(trace, actions, k, t)
  {
    assert Possible(trace[k], actions[k]);
    assert Fits(trace[k], trace[k].procs[t], actions[k].c);
  }

  /**
   A finished quiescence request, next to QuiescedForever: if it failed, a listing
   failed, its time was up, or one of its workers failed.
   */
  lemma QuiesceAnswers(trace: seq<State>, actions: seq<Action>, a: nat, j: nat, t: Thread)
    requires Execution(trace, actions) && a <= j < |trace| && t in trace[a].procs && trace[a].procs[t].QuiesceBegin?
    ensures t in trace[j].procs && !Did(trace, actions, a, j, t, InventoryChanged)
    ensures trace[j].procs[t].Finished? ==>
              match trace[j].procs[t].outcome
              case Swept(_) => Did(trace, actions, a, j, t, ListedEmpty)
              case SweepFailed =>
                || Did(trace, actions, a, j, t, ListingFails)
                || exists k: nat :: a <= k < j && JoinEnds(trace, actions, k, t)
              case _ => false
  {
    SweepInRun(trace, actions, a, j, t);
    if Did(trace, actions, a, j, t, JoinFails) {
      var k: nat :| a <= k < j && Shows(trace, actions, k, t, JoinFails);
      JoinFailsWhy(trace, actions, k, t);
    }
  }

  /**
   From one listing of the reaper to the next: every sandbox that was idle for the
   timeout when it listed them has been handled, that is, found in use again at its
   re-check, or found idle and then removed, replaced, or failed to be removed.
   */
  lemma ReaperHandlesAll(trace: seq<State>, actions: seq<Action>, a: nat, b: nat, j: nat, r: Thread, id: SandboxId)
    requires Execution(trace, actions) && a < b == a + 1 <= j < |trace| && actions[a].Step? && actions[a].t == r
    requires r in trace[a].procs && trace[a].procs[r] == ReapScan([])
    requires forall l :: b <= l < j && r in trace[l].procs ==> trace[l].procs[r] != ReapScan([])
    requires id in trace[a].mem.activity && trace[a].mem.now - trace[a].mem.activity[id].at >= trace[a].mem.idle
    ensures r in trace[j].procs
    ensures trace[j].procs[r] == ReapScan([]) ==>
              Handled(Expired(id, trace[a].mem.activity[id].generation), Past(trace, actions, b, j, r))
  {
    var queue := actions[a].c.queue;
    var e := Expired(id, trace[a].mem.activity[id].generation);
    assert Possible(trace[a], actions[a]);
    PcMoves(trace[a], actions[a], r);
    assert trace[b].procs[r] == ReapScan(queue) && e in queue;
    var story := (pc, past) => ReapStory(queue, pc, past);
    forall m, pc, c, past ensures Follows(story, Collects, r, m, pc, c, past) {
      if story(pc, past) && !Collects(pc) {
        ReapMove(m, pc, r, c, queue, past);
      }
    }
    StoryInRun(trace, actions, b, j, r, story, Collects);
    if trace[j].procs[r] == ReapScan([]) {
      var i :| 0 <= i < |queue| && queue[i] == e;
      assert Progress(queue, [], Past(trace, actions, b, j, r));
    }
  }

  predicate Collects(pc: Pc) {
    pc == ReapScan([])
  }
}
