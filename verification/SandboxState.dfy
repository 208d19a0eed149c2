/**
 The shared objects of the sandbox provisioner: operation pins, the quiescence
 gate, the in-memory backend and the idle reaper's activity table.

 Each object is given twice: as a value with one function per lock-held region,
 which the protocol is built from, and as the class whose methods update the
 fields in place and are proved to compute exactly those functions. A condition
 variable is the set of threads parked in its wait(); notify_all empties it.
 */
module SandboxState {
  import opened Prelude

  type SandboxId = string
  type Generation = string
  type Thread = nat

  // ---------------------------------------------------------------- pins

  datatype Pins = Pins(active: map<SandboxId, nat>, deleting: set<SandboxId>, asleep: set<Thread>) {

    function Count(id: SandboxId): nat {
      if id in active then active[id] else 0
    }

    /** One pass of acquire's loop: park while the id is being deleted, else take a pin. */
    function Acquire(t: Thread, id: SandboxId): Pins {
      if id in deleting then this.(asleep := asleep + {t})
      else this.(active := active[id := Count(id) + 1])
    }

    function Release(id: SandboxId): Pins {
      if Count(id) <= 1 then Pins(active - {id}, deleting, {})
      else this.(active := active[id := (Count(id) - 1) as nat])
    }

    function Mark(id: SandboxId): Pins {
      this.(deleting := deleting + {id})
    }

    /** One pass of begin_delete's loop: park while the id is pinned. */
    function Drain(t: Thread, id: SandboxId): Pins {
      if Count(id) > 0 then this.(asleep := asleep + {t}) else this
    }

    function EndDelete(id: SandboxId): Pins {
      Pins(active, deleting - {id}, {})
    }
  }

  const NO_PINS := Pins(map[], {}, {})

  class SandboxOperationPins {
    var active: map<SandboxId, nat>
    var deleting: set<SandboxId>
    var asleep: set<Thread>

    function View(): Pins
      reads this
    {
      Pins(active, deleting, asleep)
    }

    constructor ()
      ensures View() == NO_PINS
    {
      active, deleting, asleep := map[], {}, {};
    }

    method Acquire(t: Thread, id: SandboxId) returns (acquired: bool)
      modifies this
      ensures acquired <==> id !in old(deleting)
      ensures View() == old(View()).Acquire(t, id)
    {
      if id in deleting {
        asleep := asleep + {t};
        return false;
      }
      active := active[id := (if id in active then active[id] else 0) + 1];
      return true;
    }

    method Release(id: SandboxId)
      modifies this
      ensures View() == old(View()).Release(id)
    {
      var count := if id in active then active[id] else 0;
      if count <= 1 {
        active := active - {id};
        asleep := {};
      } else {
        active := active[id := count - 1];
      }
    }

    method BeginDelete(t: Thread, id: SandboxId) returns (drained: bool)
      modifies this
      ensures drained <==> old(View()).Count(id) == 0
      ensures View() == old(View()).Mark(id).Drain(t, id)
    {
      deleting := deleting + {id};
      drained := ContinueDrain(t, id);
    }

    /** The wait loop's test, run again after a wake-up; the mark is not renewed. */
    method ContinueDrain(t: Thread, id: SandboxId) returns (drained: bool)
      modifies this
      ensures drained <==> old(View()).Count(id) == 0
      ensures View() == old(View()).Drain(t, id)
    {
      drained := id !in active || active[id] == 0;
      if !drained {
        asleep := asleep + {t};
      }
    }

    method EndDelete(id: SandboxId)
      modifies this
      ensures View() == old(View()).EndDelete(id)
    {
      deleting := deleting - {id};
      asleep := {};
    }
  }

  // ---------------------------------------------------------------- gate

  datatype Gate = Gate(started: bool, creates: int, asleep: set<Thread>) {

    function Start(): Gate {
      this.(started := true)
    }

    /** One pass of begin's loop: park while a create is in flight. */
    function Drain(t: Thread): Gate {
      if creates != 0 then this.(asleep := asleep + {t}) else this
    }

    function AcquireCreate(): Option<Gate> {
      if started then None else Some(this.(creates := creates + 1))
    }

    function ReleaseCreate(): Gate {
      if creates - 1 == 0 then Gate(started, 0, {}) else this.(creates := creates - 1)
    }
  }

  const OPEN_GATE := Gate(false, 0, {})

  class SandboxQuiescenceGate {
    var started: bool
    var activeCreates: int
    var asleep: set<Thread>

    function View(): Gate
      reads this
    {
      Gate(started, activeCreates, asleep)
    }

    constructor ()
      ensures View() == OPEN_GATE
    {
      started, activeCreates, asleep := false, 0, {};
    }

    method Begin(t: Thread) returns (drained: bool)
      modifies this
      ensures drained <==> old(activeCreates) == 0
      ensures View() == old(View()).Start().Drain(t)
    {
      started := true;
      drained := ContinueDrain(t);
    }

    method ContinueDrain(t: Thread) returns (drained: bool)
      modifies this
      ensures drained <==> old(activeCreates) == 0
      ensures View() == old(View()).Drain(t)
    {
      drained := activeCreates == 0;
      if !drained {
        asleep := asleep + {t};
      }
    }

    method AcquireCreate() returns (admitted: bool)
      modifies this
      ensures admitted <==> old(View()).AcquireCreate().Some?
      ensures View() == if admitted then old(View()).AcquireCreate().value else old(View())
    {
      if started {
        return false;
      }
      activeCreates := activeCreates + 1;
      return true;
    }

    method ReleaseCreate()
      modifies this
      ensures View() == old(View()).ReleaseCreate()
    {
      activeCreates := activeCreates - 1;
      if activeCreates == 0 {
        asleep := {};
      }
    }
  }

  // ---------------------------------------------------------------- backend

  datatype Record = Record(generation: Generation, workdir: Option<string>)

  type Inventory = map<SandboxId, Record>

  /** Reuse the live record, reject another workdir, or store a record under a fresh token. */
  function CreateRecord(records: Inventory, id: SandboxId, workdir: Option<string>, token: Generation): Option<Record> {
    if id !in records then Some(Record(token, workdir))
    else if records[id].workdir != workdir then None
    else Some(records[id])
  }

  /** An absent fence and an empty one are the same: the delete is unfenced. */
  predicate FenceAllows(records: Inventory, id: SandboxId, fence: Option<Generation>) {
    id in records && fence.Some? && fence.value != "" ==> records[id].generation == fence.value
  }

  class MemoryProvisionerBackend {
    var records: Inventory

    constructor ()
      ensures records == map[]
    {
      records := map[];
    }

    method Create(id: SandboxId, workdir: Option<string>, token: Generation) returns (made: Option<Record>)
      modifies this
      ensures made == CreateRecord(old(records), id, workdir, token)
      ensures records == if made.Some? then old(records)[id := made.value] else old(records)
    {
      if id in records {
        if records[id].workdir != workdir {
          return None;
        }
        assert records[id := records[id]] == records;
        return Some(records[id]);
      }
      var record := Record(token, workdir);
      records := records[id := record];
      return Some(record);
    }

    method Delete(id: SandboxId, fence: Option<Generation>) returns (matched: bool)
      modifies this
      ensures matched <==> FenceAllows(old(records), id, fence)
      ensures records == if matched then old(records) - {id} else old(records)
    {
      if id in records && fence.Some? && fence.value != "" && records[id].generation != fence.value {
        return false;
      }
      records := records - {id};
      return true;
    }
  }

  // ---------------------------------------------------------------- idle reaper

  datatype Seen = Seen(generation: Option<Generation>, at: int)

  type Activity = map<SandboxId, Seen>

  datatype Expired = Expired(id: SandboxId, generation: Option<Generation>)

  function Touch(activity: Activity, id: SandboxId, generation: Option<Generation>, now: int): Activity {
    var observed := if generation.Some? then generation
                    else if id in activity then activity[id].generation else None;
    activity[id := Seen(observed, now)]
  }

  /** Here an empty fence is still a fence, unlike the backend's. */
  function Forget(activity: Activity, id: SandboxId, fence: Option<Generation>): Activity {
    if id in activity && fence.Some? && activity[id].generation != fence then activity
    else activity - {id}
  }

  /** A touch without a generation keeps the remembered one, so deletes fenced by it still forget the entry. */
  lemma TouchKeepsGeneration(activity: Activity, id: SandboxId, now: int)
    requires id in activity
    ensures var after := Touch(activity, id, None, now);
            && after == activity[id := Seen(activity[id].generation, now)]
            && Forget(after, id, activity[id].generation) == activity - {id}
  {
    assert activity[id := Seen(activity[id].generation, now)] - {id} == activity - {id};
  }

  predicate IsExpired(activity: Activity, e: Expired, cutoff: int) {
    e.id in activity && activity[e.id].generation == e.generation && activity[e.id].at <= cutoff
  }

  class SandboxIdleReaper {
    var lastActivity: Activity
    const idleTimeout: int

    constructor (idleTimeout: int)
      ensures lastActivity == map[] && this.idleTimeout == idleTimeout
    {
      lastActivity := map[];
      this.idleTimeout := idleTimeout;
    }

    method TouchAt(id: SandboxId, generation: Option<Generation>, now: int)
      modifies this
      ensures lastActivity == Touch(old(lastActivity), id, generation, now)
    {
      var observed := generation;
      if generation.None? && id in lastActivity {
        observed := lastActivity[id].generation;
      }
      lastActivity := lastActivity[id := Seen(observed, now)];
    }

    method ForgetFenced(id: SandboxId, fence: Option<Generation>)
      modifies this
      ensures lastActivity == Forget(old(lastActivity), id, fence)
    {
      if id !in lastActivity {
        assert lastActivity - {id} == lastActivity;
        return;
      }
      if fence.Some? && lastActivity[id].generation != fence {
        return;
      }
      lastActivity := lastActivity - {id};
    }

    /** Lists every entry whose last activity is at or before the cutoff, each id once. */
    method CollectExpired(now: int) returns (queue: seq<Expired>)
      ensures idleTimeout <= 0 ==> queue == []
      ensures idleTimeout > 0 ==> forall e :: e in queue <==> IsExpired(lastActivity, e, now - idleTimeout)
      ensures forall i, j :: 0 <= i < j < |queue| ==> queue[i].id != queue[j].id
      ensures idleTimeout > 0 ==> forall id :: id in lastActivity ==>
        (Expired(id, lastActivity[id].generation) in queue <==> now - lastActivity[id].at >= idleTimeout)
    {
      queue := [];
      if idleTimeout <= 0 {
        return;
      }
      var todo := lastActivity.Keys;
      while todo != {}
        invariant todo <= lastActivity.Keys
        invariant forall e :: e in queue <==> IsExpired(lastActivity, e, now - idleTimeout) && e.id !in todo
        invariant forall i, j :: 0 <= i < j < |queue| ==> queue[i].id != queue[j].id
        decreases todo
      {
        var id :| id in todo;
        todo := todo - {id};
        if lastActivity[id].at <= now - idleTimeout {
          var e := Expired(id, lastActivity[id].generation);
          assert forall k :: 0 <= k < |queue| ==> queue[k] in queue;
          queue := queue + [e];
        }
      }
    }

    /** The re-check made between draining the pins and deleting. */
    method StillExpired(e: Expired, cutoff: int) returns (expired: bool)
      ensures expired <==> IsExpired(lastActivity, e, cutoff)
    {
      if e.id !in lastActivity {
        return false;
      }
      var seen := lastActivity[e.id];
      return seen.generation == e.generation && !(seen.at > cutoff);
    }
  }
}
