/** The per-thread cache of Kubernetes clients: two maps kept in step, expiry by age, and every
    discarded client closed once. */
module ClientCache {
  import opened Text

  /** A kubeconfig context; None is the current one. */
  type Context = Option<string>

  /** What one `get_client` call meets: the refresh setting (None when the environment variable is
      not a non-negative integer), the clock at its two readings, and whether making a client works. */
  datatype Call = Call(context: Context, refresh: Option<nat>, checkedAt: int, createdAt: int, creates: bool)

  datatype Outcome = Got(client: nat) | InvalidSetting | CreationFailed

  /** Clients are numbered in the order they are made; `made` counts them and `closes` lists the
      calls to close, in order. */
  datatype Cache = Cache(clients: map<Context, nat>, createdAt: map<Context, int>, made: nat, closes: seq<nat>)

  const EMPTY := Cache(map[], map[], 0, [])

  predicate Expired(c: Cache, call: Call) {
    && call.refresh.Some? && call.refresh.value > 0 && call.context in c.createdAt
    && call.checkedAt - c.createdAt[call.context] >= call.refresh.value
  }

  function AfterRefresh(c: Cache, call: Call): Cache {
    if !Expired(c, call) then c
    else Cache(c.clients - {call.context}, c.createdAt - {call.context}, c.made,
               if call.context in c.clients then c.closes + [c.clients[call.context]] else c.closes)
  }

  function GetSpec(c: Cache, call: Call): (Outcome, Cache) {
    if call.refresh.None? then (InvalidSetting, c)
    else
      var c1 := AfterRefresh(c, call);
      if call.context in c1.clients then (Got(c1.clients[call.context]), c1)
      else if !call.creates then (CreationFailed, c1)
      else (Got(c1.made), Cache(c1.clients[call.context := c1.made], c1.createdAt[call.context := call.createdAt], c1.made + 1, c1.closes))
  }

  class ThreadLocalClientFactory {
    var clients: map<Context, nat>
    var createdAt: map<Context, int>
    ghost var made: nat        // clients ever made
    ghost var closes: seq<nat> // close calls so far

    ghost function View(): Cache
      reads this
    {
      Cache(clients, createdAt, made, closes)
    }

    constructor ()
      ensures View() == EMPTY
    {
      clients, createdAt := map[], map[];
      made, closes := 0, [];
    }

    /** `client` is the number the next client made gets. */
    method GetClient(call: Call, client: nat) returns (outcome: Outcome)
      requires client == made
      modifies this
      ensures (outcome, View()) == GetSpec(old(View()), call)
    {
      if call.refresh.None? {
        return InvalidSetting;
      }
      MaybeRefresh(call);
      if call.context !in clients {
        if !call.creates {
          return CreationFailed;
        }
        clients := clients[call.context := client];
        made := made + 1;
        createdAt := createdAt[call.context := call.createdAt];
      }
      outcome := Got(clients[call.context]);
    }

    method MaybeRefresh(call: Call)
      requires call.refresh.Some?
      modifies this
      ensures View() == AfterRefresh(old(View()), call)
    {
      if call.refresh.value <= 0 {
        return;
      }
      if call.context !in createdAt {
        return;
      }
      var age := call.checkedAt - createdAt[call.context];
      if age < call.refresh.value {
        return;
      }
      var oldClient := if call.context in clients then Some(clients[call.context]) else None;
      clients := clients - {call.context};
      createdAt := createdAt - {call.context};
      if oldClient.Some? {
        closes := closes + [oldClient.value];
      }
    }
  }

  /** How often a client has been closed. */
  function TimesClosed(c: Cache, client: nat): nat {
    multiset(c.closes)[client]
  }

  predicate Cached(c: Cache, client: nat) {
    exists context :: context in c.clients && c.clients[context] == client
  }

  /** Equal key sets; no client cached twice; every client ever made is either cached and never
      closed, or not cached and closed exactly once; nothing else was closed. */
  ghost predicate Inv(c: Cache) {
    && c.clients.Keys == c.createdAt.Keys
    && (forall k, l :: k in c.clients && l in c.clients && c.clients[k] == c.clients[l] ==> k == l)
    && (forall k :: k in c.clients ==> c.clients[k] < c.made)
    && (forall id: nat :: TimesClosed(c, id) == if id < c.made && !Cached(c, id) then 1 else 0)
  }

  lemma RefreshKeeps(c: Cache, call: Call)
    requires Inv(c)
    ensures Inv(AfterRefresh(c, call))
  {
    if Expired(c, call) {
      var c', gone := AfterRefresh(c, call), c.clients[call.context];
      assert c'.closes == c.closes + [gone];
      forall id: nat ensures TimesClosed(c', id) == if id < c'.made && !Cached(c', id) then 1 else 0 {
        assert TimesClosed(c', id) == TimesClosed(c, id) + if id == gone then 1 else 0;
        if Cached(c, id) && id != gone {
          var k :| k in c.clients && c.clients[k] == id;
          assert k in c'.clients && c'.clients[k] == id;
        }
      }
    }
  }

  lemma CachedToo(c: Cache, context: Context, at: int, id: nat)
    requires context !in c.clients
    ensures Cached(Cache(c.clients[context := c.made], c.createdAt[context := at], c.made + 1, c.closes), id) <==> Cached(c, id) || id == c.made
  {
    var clients := c.clients[context := c.made];
    assert clients[context] == c.made;
    if Cached(c, id) {
      var k :| k in c.clients && c.clients[k] == id;
      assert k in clients && clients[k] == id;
    }
  }

  lemma CreateKeeps(c: Cache, context: Context, at: int)
    requires Inv(c) && context !in c.clients
    ensures Inv(Cache(c.clients[context := c.made], c.createdAt[context := at], c.made + 1, c.closes))
  {
    var c' := Cache(c.clients[context := c.made], c.createdAt[context := at], c.made + 1, c.closes);
    forall id: nat ensures Cached(c', id) <==> Cached(c, id) || id == c.made {
      CachedToo(c, context, at, id);
    }
    forall id: nat ensures TimesClosed(c', id) == if id < c'.made && !Cached(c', id) then 1 else 0 {
      assert TimesClosed(c', id) == TimesClosed(c, id);
    }
  }

  /** A call touches no other context's client. */
  lemma OtherContextsUntouched(c: Cache, call: Call, k: Context)
    requires k != call.context
    ensures var c' := GetSpec(c, call).1; (k in c'.clients <==> k in c.clients) && (k in c.clients ==> c'.clients[k] == c.clients[k])
  {
  }

  /** The client is open, cached for the context asked for, and with refreshing on, younger than the
      limit at the check or just made. */
  predicate OpenAndFresh(c: Cache, call: Call, client: nat, c': Cache) {
    && call.context in c'.clients && c'.clients[call.context] == client
    && TimesClosed(c', client) == 0
    && (client == c.made
        || (call.context in c.createdAt && call.context in c.clients && client == c.clients[call.context]
            && (call.refresh.Some? && call.refresh.value > 0 ==> call.checkedAt - c.createdAt[call.context] < call.refresh.value)))
  }

  /** One call keeps the invariant and only ever returns such a client. */
  lemma CallKeeps(c: Cache, call: Call)
    requires Inv(c)
    ensures var (outcome, c') := GetSpec(c, call);
      Inv(c') && (outcome.Got? ==> OpenAndFresh(c, call, outcome.client, c'))
  {
    if call.refresh.Some? {
      RefreshKeeps(c, call);
      var c1 := AfterRefresh(c, call);
      if call.context !in c1.clients {
        CreateKeeps(c1, call.context, call.createdAt);
      }
    }
    ReturnedIsCached(c, call);
  }

  lemma ReturnedIsCached(c: Cache, call: Call)
    ensures var (outcome, c') := GetSpec(c, call); outcome.Got? ==> Cached(c', outcome.client)
  {
    var (outcome, c') := GetSpec(c, call);
    if outcome.Got? {
      assert c'.clients[call.context] == outcome.client;
    }
  }

  function RunCalls(c: Cache, calls: seq<Call>): Cache
    decreases |calls|
  {
    if calls == [] then c else RunCalls(GetSpec(c, calls[0]).1, calls[1..])
  }

  lemma {:induction false} RunKeeps(c: Cache, calls: seq<Call>)
    requires Inv(c)
    ensures Inv(RunCalls(c, calls))
    decreases |calls|
  {
    if calls != [] {
      CallKeeps(c, calls[0]);
      RunKeeps(GetSpec(c, calls[0]).1, calls[1..]);
    }
  }

  lemma EmptyOk()
    ensures Inv(EMPTY)
  {
  }

  /** After any calls, with any refresh settings: the two maps have the same keys, and every client
      ever made is either the one cached for its context and open, or was closed exactly once. */
  lemma CachedOrClosedOnce(calls: seq<Call>, client: nat)
    requires client < RunCalls(EMPTY, calls).made
    ensures var c := RunCalls(EMPTY, calls);
      && c.clients.Keys == c.createdAt.Keys
      && TimesClosed(c, client) == (if Cached(c, client) then 0 else 1)
  {
    EmptyOk();
    RunKeeps(EMPTY, calls);
  }

  // ---- What a caller sees, call by call ----

  /** What the i-th call of a run gave. */
  function OutcomeAt(calls: seq<Call>, i: nat): Outcome
    requires i < |calls|
  {
    GetSpec(RunCalls(EMPTY, calls[..i]), calls[i]).0
  }

  /** The call that made this client: the first that gave it out. */
  predicate Made(calls: seq<Call>, i: nat, client: nat) {
    && i < |calls| && calls[i].creates && OutcomeAt(calls, i) == Got(client)
    && forall j: nat :: j < i ==> OutcomeAt(calls, j) != Got(client)
  }

  lemma {:induction false} RunOneMore(c: Cache, calls: seq<Call>, call: Call)
    ensures RunCalls(c, calls + [call]) == GetSpec(RunCalls(c, calls), call).1
    decreases |calls|
  {
    if calls == [] {
      assert [call][1..] == [] && [] + [call] == [call];
    } else {
      assert (calls + [call])[1..] == calls[1..] + [call];
      RunOneMore(GetSpec(c, calls[0]).1, calls[1..], call);
    }
  }

  lemma SameOutcome(calls: seq<Call>, call: Call, i: nat)
    requires i < |calls|
    ensures OutcomeAt(calls + [call], i) == OutcomeAt(calls, i)
  {
    assert (calls + [call])[..i] == calls[..i];
  }

  lemma LastOutcome(calls: seq<Call>, call: Call)
    ensures OutcomeAt(calls + [call], |calls|) == GetSpec(RunCalls(EMPTY, calls), call).0
  {
    assert (calls + [call])[..|calls|] == calls;
  }

  lemma StillMade(calls: seq<Call>, call: Call, i: nat, client: nat)
    requires Made(calls, i, client)
    ensures Made(calls + [call], i, client)
  {
    SameOutcome(calls, call, i);
    forall j: nat | j < i ensures OutcomeAt(calls + [call], j) != Got(client) {
      SameOutcome(calls, call, j);
    }
  }

  lemma {:induction false} GivenWasMade(calls: seq<Call>, i: nat, client: nat)
    requires i < |calls| && OutcomeAt(calls, i) == Got(client)
    ensures client < RunCalls(EMPTY, calls).made
  {
    var n := |calls| - 1;
    var before, call := calls[..n], calls[n];
    assert calls == before + [call];
    RunOneMore(EMPTY, before, call);
    EmptyOk();
    RunKeeps(EMPTY, before);
    if i < n {
      SameOutcome(before, call, i);
      GivenWasMade(before, i, client);
    } else {
      LastOutcome(before, call);
    }
  }

  lemma JustMade(calls: seq<Call>, call: Call)
    requires GetSpec(RunCalls(EMPTY, calls), call).0 == Got(RunCalls(EMPTY, calls).made)
    ensures Made(calls + [call], |calls|, RunCalls(EMPTY, calls).made)
  {
    EmptyOk();
    RunKeeps(EMPTY, calls);
    LastOutcome(calls, call);
    forall j: nat | j < |calls| ensures OutcomeAt(calls + [call], j) != Got(RunCalls(EMPTY, calls).made) {
      SameOutcome(calls, call, j);
      if OutcomeAt(calls, j) == Got(RunCalls(EMPTY, calls).made) {
        GivenWasMade(calls, j, RunCalls(EMPTY, calls).made);
      }
    }
  }

  /** The client cached for a context was made by a call for it, and the time recorded is the clock that
      very call read once it had made it. */
  ghost predicate Recorded(calls: seq<Call>, k: Context)
    requires k in RunCalls(EMPTY, calls).clients
  {
    var c := RunCalls(EMPTY, calls);
    k in c.createdAt && exists i: nat :: Made(calls, i, c.clients[k]) && calls[i].context == k && calls[i].createdAt == c.createdAt[k]
  }

  lemma {:induction false} RecordedWhenMade(calls: seq<Call>, k: Context)
    requires k in RunCalls(EMPTY, calls).clients
    ensures Recorded(calls, k)
  {
    var n := |calls| - 1;
    var before, call := calls[..n], calls[n];
    assert calls == before + [call];
    RunOneMore(EMPTY, before, call);
    EmptyOk();
    RunKeeps(EMPTY, before);
    KeptOrMade(RunCalls(EMPTY, before), call, k);
    if IsNew(RunCalls(EMPTY, before), call, k) {
      JustMade(before, call);
      assert calls[n] == call;
    } else {
      RecordedWhenMade(before, k);
      StillRecorded(before, call, k);
    }
  }

  predicate IsNew(c: Cache, call: Call, k: Context) {
    k == call.context && GetSpec(c, call).0 == Got(c.made)
  }

  lemma KeptOrMade(c: Cache, call: Call, k: Context)
    requires Inv(c) && k in GetSpec(c, call).1.clients
    ensures k in GetSpec(c, call).1.createdAt
    ensures var c' := GetSpec(c, call).1;
      if IsNew(c, call, k) then call.creates && c'.clients[k] == c.made && c'.createdAt[k] == call.createdAt
      else k in c.clients && k in c.createdAt && c'.clients[k] == c.clients[k] && c'.createdAt[k] == c.createdAt[k]
  {
  }

  lemma StillRecorded(calls: seq<Call>, call: Call, k: Context)
    requires k in RunCalls(EMPTY, calls).clients && Recorded(calls, k)
    ensures var c := RunCalls(EMPTY, calls);
      exists i: nat :: Made(calls + [call], i, c.clients[k]) && (calls + [call])[i].context == k && (calls + [call])[i].createdAt == c.createdAt[k]
  {
    var c := RunCalls(EMPTY, calls);
    var i: nat :| Made(calls, i, c.clients[k]) && calls[i].context == k && calls[i].createdAt == c.createdAt[k];
    StillMade(calls, call, i, c.clients[k]);
    assert (calls + [call])[i] == calls[i];
  }

  /** A client is cached for the context, and its age, from the clock read when it was made, is below the
      limit. */
  ghost predicate YoungCached(calls: seq<Call>, call: Call) {
    var c := RunCalls(EMPTY, calls);
    && call.context in c.clients && call.refresh.Some?
    && exists i: nat :: Made(calls, i, c.clients[call.context]) &&
         (call.refresh.value > 0 ==> call.checkedAt - calls[i].createdAt < call.refresh.value)
  }

  lemma MadeOnce(calls: seq<Call>, i: nat, j: nat, client: nat)
    requires Made(calls, i, client) && Made(calls, j, client)
    ensures i == j
  {
  }

  lemma YoungIff(calls: seq<Call>, call: Call)
    requires call.refresh.Some?
    ensures YoungCached(calls, call) <==> call.context in RunCalls(EMPTY, calls).clients && !Expired(RunCalls(EMPTY, calls), call)
  {
    var c := RunCalls(EMPTY, calls);
    if call.context in c.clients {
      RecordedWhenMade(calls, call.context);
      var i: nat :| Made(calls, i, c.clients[call.context]) && calls[i].createdAt == c.createdAt[call.context];
      forall j: nat | Made(calls, j, c.clients[call.context]) ensures j == i {
        MadeOnce(calls, i, j, c.clients[call.context]);
      }
    }
  }

  /** What any call of any run gives, and what is cached for its context then: an invalid setting changes
      nothing; a client that is young enough is given again; else a new one is made, or, when that fails,
      none is left. */
  lemma CallGives(calls: seq<Call>, call: Call)
    ensures var c := RunCalls(EMPTY, calls); var (outcome, c') := GetSpec(c, call);
      && (outcome == InvalidSetting <==> call.refresh.None?) && (outcome == InvalidSetting ==> c' == c)
      && (outcome.Got? <==> call.refresh.Some? && (YoungCached(calls, call) || call.creates))
      && (outcome.Got? ==> call.context in c'.clients && c'.clients[call.context] == outcome.client
                           && if YoungCached(calls, call) then c.clients[call.context] == outcome.client
                              else Made(calls + [call], |calls|, outcome.client))
      && (outcome == CreationFailed ==> call.context !in c'.clients)
  {
    EmptyOk();
    RunKeeps(EMPTY, calls);
    if call.refresh.Some? {
      YoungIff(calls, call);
      if !YoungCached(calls, call) && call.creates {
        JustMade(calls, call);
      }
    }
  }

  /** In any run, a client is handed out only while open, to the context it was made for; and with
      refreshing on, only by the call that made it, or while its age since the clock that call read is below
      the limit. */
  lemma ReturnedClientIsOpenAndFresh(calls: seq<Call>, call: Call)
    ensures var c := RunCalls(EMPTY, calls); var (outcome, c') := GetSpec(c, call);
      outcome.Got? ==>
        && TimesClosed(c', outcome.client) == 0
        && exists i: nat :: Made(calls + [call], i, outcome.client) && (calls + [call])[i].context == call.context
             && (i == |calls| || (call.refresh.value > 0 ==> call.checkedAt - calls[i].createdAt < call.refresh.value))
  {
    EmptyOk();
    RunKeeps(EMPTY, calls);
    var c := RunCalls(EMPTY, calls);
    CallKeeps(c, call);
    CallGives(calls, call);
    var outcome := GetSpec(c, call).0;
    if outcome.Got? {
      if YoungCached(calls, call) {
        RecordedWhenMade(calls, call.context);
        GivenYoung(calls, call);
      } else {
        assert Made(calls + [call], |calls|, outcome.client);
      }
    }
  }

  lemma GivenYoung(calls: seq<Call>, call: Call)
    requires YoungCached(calls, call)
    ensures var client := RunCalls(EMPTY, calls).clients[call.context];
      exists i: nat :: i < |calls| && Made(calls + [call], i, client) && calls[i].context == call.context
           && (call.refresh.value > 0 ==> call.checkedAt - calls[i].createdAt < call.refresh.value)
  {
    var client := RunCalls(EMPTY, calls).clients[call.context];
    RecordedWhenMade(calls, call.context);
    var i: nat :| Made(calls, i, client) && (call.refresh.value > 0 ==> call.checkedAt - calls[i].createdAt < call.refresh.value);
    var j: nat :| Made(calls, j, client) && calls[j].context == call.context;
    MadeOnce(calls, i, j, client);
    StillMade(calls, call, i, client);
  }

  /** With refreshing off, a client is made once and kept for good. */
  lemma NoRefreshKeepsClients(c: Cache, call: Call)
    requires Inv(c) && call.refresh == Some(0) && call.context in c.clients
    ensures GetSpec(c, call) == (Got(c.clients[call.context]), c)
  {
  }
}
