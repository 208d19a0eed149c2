/** The login rate limit: per client, a window of the attempts let through since the last success. Time is a real. */
module LoginLimiter {
  import opened Prelude

  const MAX_ATTEMPTS := 10
  const WINDOW_SECONDS := 60.0

  type Client = string

  /** The history without what is older than the window. */
  function Pruned(history: seq<real>, now: real): (rest: seq<real>) {
    if history != [] && now - history[0] > WINDOW_SECONDS then Pruned(history[1..], now) else history
  }

  /**
   What one client's limiter made of its attempts since the last success: the history it
   keeps, and the times let through.
   */
  datatype State = State(history: seq<real>, admitted: seq<real>)

  function Next(s: State, now: real): State {
    var kept := Pruned(s.history, now);
    if |kept| < MAX_ATTEMPTS then State(kept + [now], s.admitted + [now]) else State(kept, s.admitted)
  }

  function After(times: seq<real>): State {
    if times == [] then State([], []) else Next(After(times[..|times| - 1]), times[|times| - 1])
  }

  lemma {:induction false} AfterMore(times: seq<real>, now: real)
    ensures After(times + [now]) == Next(After(times), now)
  {
    assert (times + [now])[..|times|] == times;
  }

  /** The times recorded for a client, none at first. */
  function Of(all: map<Client, seq<real>>, client: Client): seq<real> {
    if client in all then all[client] else []
  }

  predicate AgreeOn(attempts: map<Client, seq<real>>, tried: map<Client, seq<real>>, client: Client) {
    Of(attempts, client) == After(Of(tried, client)).history
  }

  ghost predicate Agree(attempts: map<Client, seq<real>>, tried: map<Client, seq<real>>) {
    forall client :: AgreeOn(attempts, tried, client)
  }

  lemma {:induction false} AgreeAfterUpdate(attempts: map<Client, seq<real>>, tried: map<Client, seq<real>>,
                                            client: Client, history: seq<real>, times: seq<real>)
    requires Agree(attempts, tried) && history == After(times).history
    ensures Agree(attempts[client := history], tried[client := times])
  {
    var attempts', tried' := attempts[client := history], tried[client := times];
    forall other ensures AgreeOn(attempts', tried', other) {
      assert AgreeOn(attempts, tried, other);
    }
  }

  lemma {:induction false} AgreeAfterRemoval(attempts: map<Client, seq<real>>, tried: map<Client, seq<real>>,
                                             client: Client)
    requires Agree(attempts, tried)
    ensures Agree(attempts - {client}, tried - {client})
  {
    var attempts', tried' := attempts - {client}, tried - {client};
    forall other ensures AgreeOn(attempts', tried', other) {
      assert AgreeOn(attempts, tried, other);
    }
  }

  class LoginRateLimit {
    var attempts: map<Client, seq<real>>
    /** The times of each client's attempts since its last success, let through or not. */
    ghost var tried: map<Client, seq<real>>

    function History(client: Client): seq<real>
      reads this
    {
      Of(attempts, client)
    }

    ghost function Tried(client: Client): seq<real>
      reads this
    {
      Of(tried, client)
    }

    ghost predicate Valid()
      reads this
    {
      Agree(attempts, tried)
    }

    constructor ()
      ensures Valid() && attempts == map[] && tried == map[]
    {
      attempts := map[];
      tried := map[];
    }

    /** Before the request goes on: whether it may, and when rejected nothing is recorded. */
    method Attempt(client: Client, now: real) returns (admitted: bool)
      requires Valid()
      modifies this
      ensures Valid() && Tried(client) == old(Tried(client)) + [now]
      ensures admitted <==> |Pruned(old(History(client)), now)| < MAX_ATTEMPTS
      ensures History(client) == Pruned(old(History(client)), now) + if admitted then [now] else []
      ensures After(Tried(client)).admitted == After(old(Tried(client))).admitted + if admitted then [now] else []
      ensures forall other :: other != client ==>
        History(other) == old(History(other)) && Tried(other) == old(Tried(other))
    {
      var history := if client in attempts then attempts[client] else [];
      ghost var was := history;
      assert AgreeOn(attempts, tried, client);
      while history != [] && now - history[0] > WINDOW_SECONDS
        invariant Pruned(history, now) == Pruned(was, now)
        decreases |history|
      {
        history := history[1..];
      }
      admitted := |history| < MAX_ATTEMPTS;
      if admitted {
        history := history + [now];
      }
      ghost var times := Tried(client) + [now];
      AfterMore(Tried(client), now);
      AgreeAfterUpdate(attempts, tried, client, history, times);
      attempts := attempts[client := history];
      tried := tried[client := times];
    }

    /** A response without an error status forgets the client's attempts. */
    method Succeeded(client: Client)
      requires Valid()
      modifies this
      ensures Valid() && History(client) == Tried(client) == []
      ensures forall other :: other != client ==>
        History(other) == old(History(other)) && Tried(other) == old(Tried(other))
    {
      AgreeAfterRemoval(attempts, tried, client);
      attempts := attempts - {client};
      tried := tried - {client};
    }
  }

  // ------------------------------------------------------------ between two successes

  predicate Increasing(times: seq<real>) {
    forall i, j :: 0 <= i < j < |times| ==> times[i] <= times[j]
  }

  predicate IsEnd(end: seq<real>, all: seq<real>) {
    |end| <= |all| && forall i :: 0 <= i < |end| ==> end[i] == all[|all| - |end| + i]
  }

  /** The history is the end of what was let through, and what it no longer has is out of the window. */
  predicate Tracks(s: State, now: real) {
    && |s.history| <= |s.admitted| && IsEnd(s.history, s.admitted)
    && |s.history| <= MAX_ATTEMPTS
    && Increasing(s.admitted)
    && (forall i :: 0 <= i < |s.admitted| ==> s.admitted[i] <= now)
    && (forall i :: 0 <= i < |s.admitted| - |s.history| ==> now - s.admitted[i] > WINDOW_SECONDS)
  }

  lemma {:induction false} PrunedIsEnd(history: seq<real>, now: real)
    ensures var rest := Pruned(history, now);
            && |rest| <= |history| && IsEnd(rest, history)
            && (forall i :: 0 <= i < |history| - |rest| ==> now - history[i] > WINDOW_SECONDS)
            && (rest != [] ==> now - rest[0] <= WINDOW_SECONDS)
  {
    if history != [] && now - history[0] > WINDOW_SECONDS {
      PrunedIsEnd(history[1..], now);
    }
  }

  lemma {:induction false} PruningTracks(s: State, last: real, now: real)
    requires Tracks(s, last) && last <= now
    ensures Tracks(State(Pruned(s.history, now), s.admitted), now)
  {
    PrunedIsEnd(s.history, now);
    var forgotten := |s.admitted| - |s.history|;
    forall i | 0 <= i < |s.admitted| - |Pruned(s.history, now)| ensures now - s.admitted[i] > WINDOW_SECONDS {
      assert i >= forgotten ==> s.admitted[i] == s.history[i - forgotten];
    }
  }

  lemma {:induction false} AdmittingTracks(s: State, now: real)
    requires Tracks(s, now) && |s.history| < MAX_ATTEMPTS
    ensures Tracks(State(s.history + [now], s.admitted + [now]), now)
  {
  }

  lemma {:induction false} NextTracks(s: State, last: real, now: real)
    requires Tracks(s, last) && last <= now
    ensures Tracks(Next(s, now), now)
  {
    PruningTracks(s, last, now);
    var kept := State(Pruned(s.history, now), s.admitted);
    if |kept.history| < MAX_ATTEMPTS {
      AdmittingTracks(kept, now);
    }
  }

  lemma {:induction false} RunTracks(times: seq<real>, now: real)
    requires Increasing(times) && forall i :: 0 <= i < |times| ==> times[i] <= now
    ensures Tracks(After(times), now)
  {
    if times != [] {
      var last := times[|times| - 1];
      RunTracks(times[..|times| - 1], last);
      NextTracks(After(times[..|times| - 1]), last, last);
    }
  }

  /** Any eleven attempts let through, from the first to the last of them, take more than the window. */
  predicate Sparse(admitted: seq<real>) {
    forall i, j :: 0 <= i && i + 10 <= j < |admitted| ==> admitted[j] - admitted[i] > 60.0
  }

  lemma {:induction false} NextSparse(s: State, last: real, now: real)
    requires Tracks(s, last) && last <= now && Sparse(s.admitted)
    ensures Sparse(Next(s, now).admitted)
  {
    PrunedIsEnd(s.history, now);
  }

  /** So between two successes no window of sixty seconds lets more than ten attempts of a client through. */
  lemma {:induction false} AtMostTenPerWindow(times: seq<real>)
    requires Increasing(times)
    ensures Sparse(After(times).admitted)
  {
    if times != [] {
      var last := times[|times| - 1];
      AtMostTenPerWindow(times[..|times| - 1]);
      RunTracks(times[..|times| - 1], last);
      NextSparse(After(times[..|times| - 1]), last, last);
    }
  }

  lemma {:induction false} RoomMeans(times: seq<real>, now: real)
    requires Increasing(times) && forall i :: 0 <= i < |times| ==> times[i] <= now
    ensures var admitted := After(times).admitted;
            |Pruned(After(times).history, now)| < 10 <==> |admitted| < 10 || now - admitted[|admitted| - 10] > 60.0
  {
    RunTracks(times, now);
    PrunedIsEnd(After(times).history, now);
  }

  /**
   And none is turned away before: an attempt passes exactly if the tenth last one let
   through is out of the window.
   */
  lemma {:induction false} TurnedAwayOnlyWhenFull(times: seq<real>, now: real)
    requires Increasing(times) && forall i :: 0 <= i < |times| ==> times[i] <= now
    ensures var admitted := After(times).admitted;
            After(times + [now]).admitted ==
            if |admitted| < 10 || now - admitted[|admitted| - 10] > 60.0 then admitted + [now] else admitted
  {
    RoomMeans(times, now);
    AfterMore(times, now);
  }
}
