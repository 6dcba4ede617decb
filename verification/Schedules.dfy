/** Which runs the schedules of many clients amount to: every call can enter and
    return, clients can die anywhere, and the logs that come about are exactly
    the sequential runs in which each call ends as it could end alone. */
module Schedules {
  import opened Wrappers
  import opened Runtime
  import opened RuntimeLaws
  import opened Runs
  import opened Concurrency
  import opened Deliveries

  /** Steps a holder still needs before it can unlock. */
  function Remaining(client: Client): nat {
    match client
    case Holding(_) => 3
    case Counted(_, _) => 2
    case Bumped(_) => 1
    case _ => 0
  }

  lemma OneEvent(served: Served, cfg: Config, event: Event)
    ensures Exec(served, cfg, [event]) == Step(served, cfg, event)
  {
  }

  lemma WorkProgresses(served: Served, cfg: Config, c: nat)
    requires Simulates(served, cfg) && cfg.holder == Some(c) && !cfg.clients[c].Finished?
    ensures
      var next := Step(served, cfg, Work(c));
      && next.holder == Some(c) && next.clients.Keys == cfg.clients.Keys
      && Remaining(next.clients[c]) < Remaining(cfg.clients[c])
      && next.clients[c].call == cfg.clients[c].call && next.log == cfg.log
      && forall d :: d in cfg.clients && d != c ==> next.clients[d] == cfg.clients[d]
  {
    hide Perform, Base, Apply;
  }

  /** The holder of the lock can always run to its return, and is then logged. */
  lemma {:induction false} HolderReturns(served: Served, cfg: Config, c: nat) returns (events: seq<Event>)
    requires Simulates(served, cfg) && cfg.holder == Some(c)
    ensures
      var next := Exec(served, cfg, events);
      var call := cfg.clients[c].call;
      && next.holder == None && next.clients.Keys == cfg.clients.Keys
      && next.clients[c].Returned? && next.clients[c].call == call
      && next.log == cfg.log + [Logged(c, call, Committed(call))]
      && forall d :: d in cfg.clients && d != c ==> next.clients[d] == cfg.clients[d]
    decreases Remaining(cfg.clients[c])
  {
    hide Perform, Apply, Section;
    if cfg.clients[c].Finished? {
      events := [Unlock(c)];
      OneEvent(served, cfg, Unlock(c));
    } else {
      var next := Step(served, cfg, Work(c));
      WorkSimulates(served, cfg, c);
      WorkProgresses(served, cfg, c);
      var rest := HolderReturns(served, next, c);
      events := [Work(c)] + rest;
      assert events[1..] == rest;
    }
  }

  /** A waiting client can take a free lock and run to its return. */
  lemma {:induction false} WaiterReturns(served: Served, cfg: Config, c: nat) returns (events: seq<Event>)
    requires Simulates(served, cfg) && cfg.holder == None && c in cfg.clients && cfg.clients[c].Waiting?
    ensures
      var next := Exec(served, cfg, events);
      var call := cfg.clients[c].call;
      && next.holder == None && next.clients.Keys == cfg.clients.Keys
      && next.clients[c].Returned? && next.clients[c].call == call
      && next.log == cfg.log + [Logged(c, call, Committed(call))]
      && forall d :: d in cfg.clients && d != c ==> next.clients[d] == cfg.clients[d]
  {
    hide Perform, Apply, Section;
    var next := Step(served, cfg, Acquire(c));
    AcquireSimulates(served, cfg, c);
    var rest := HolderReturns(served, next, c);
    events := [Acquire(c)] + rest;
    assert events[1..] == rest;
  }

  /** No death and no poison blocks anyone: after any schedule, any waiting call
      can still be brought to return. */
  lemma {:induction false} NobodyIsBlocked(served: Served, events: seq<Event>, c: nat) returns (more: seq<Event>)
    requires
      var cfg := Exec(served, START, events);
      c in cfg.clients && cfg.clients[c].Waiting?
    ensures
      var (cfg, later) := (Exec(served, START, events), Exec(served, START, events + more));
      c in later.clients && later.clients[c].Returned? && later.clients[c].call == cfg.clients[c].call
  {
    hide Perform, Apply, Section;
    var cfg := Exec(served, START, events);
    StartSimulates(served);
    ExecSimulates(served, START, events);
    var first: seq<Event> := [];
    if cfg.holder.Some? {
      first := HolderReturns(served, cfg, cfg.holder.value);
    }
    ExecSimulates(served, cfg, first);
    var mine := WaiterReturns(served, Exec(served, cfg, first), c);
    more := first + mine;
    ExecConcat(served, cfg, first, mine);
    ExecConcat(served, START, events, more);
  }

  // -------------------------------------------------- calls enter and clients die

  lemma {:induction false} OneMore(served: Served, events: seq<Event>, event: Event)
    ensures Exec(served, START, events + [event]) == Step(served, Exec(served, START, events), event)
  {
    ExecConcat(served, START, events, [event]);
    OneEvent(served, Exec(served, START, events), event);
  }

  /** A call enters whenever its client makes it, whoever holds the lock: a
      malformed one is refused at once, as it would be in the present state, and
      any other one waits. Nothing else changes. */
  lemma {:induction false} CallEnters(served: Served, events: seq<Event>, c: nat, call: Call)
    requires WellFormed(served) && c !in Exec(served, START, events).clients
    ensures
      var (cfg, next) := (Exec(served, START, events), Exec(served, START, events + [Invoke(c, call)]));
      && next.shared == cfg.shared && next.holder == cfg.holder && next.poisoned == cfg.poisoned
      && next.clients.Keys == cfg.clients.Keys + {c}
      && (forall d :: d in cfg.clients ==> next.clients[d] == cfg.clients[d])
      && if Malformed(served, call) then
           && next.clients[c].Returned? && next.clients[c].call == call && next.clients[c].outcome.Failed?
           && Answers(served, cfg.shared, call, next.clients[c].outcome)
         else
           next.clients[c] == Waiting(call)
  {
    hide Perform, Apply, Section, Answers, Malformed, NeedsLock;
    var cfg := Exec(served, START, events);
    OneMore(served, events, Invoke(c, call));
    MalformedNeedsNoLock(served, call);
    if Malformed(served, call) {
      PanicTolerance(served, events);
      RejectedEverywhere(served, cfg.shared, call);
      PerformAnswers(served, cfg.shared, call);
      RejectionFails(served, call);
    }
  }

  lemma RejectionFails(served: Served, call: Call)
    requires !NeedsLock(served, call)
    ensures Rejection(served, call).Failed?
  {
  }

  /** Whatever happened before, any call a new client makes can be brought to
      return to it. */
  lemma {:induction false} EveryCallCanReturn(served: Served, events: seq<Event>, c: nat, call: Call)
    returns (more: seq<Event>)
    requires WellFormed(served) && c !in Exec(served, START, events).clients
    ensures
      var later := Exec(served, START, events + [Invoke(c, call)] + more);
      c in later.clients && later.clients[c].Returned? && later.clients[c].call == call
  {
    hide Perform, Apply, Section, Malformed, Exec;
    CallEnters(served, events, c, call);
    if Malformed(served, call) {
      more := [];
      assert events + [Invoke(c, call)] + more == events + [Invoke(c, call)];
    } else {
      more := NobodyIsBlocked(served, events + [Invoke(c, call)], c);
    }
  }

  /** A client can die while it waits and anywhere in its critical section. Its
      death changes no state, frees the lock if it held it, and poisons it then. */
  lemma {:induction false} DeathAnywhere(served: Served, events: seq<Event>, c: nat)
    requires
      var cfg := Exec(served, START, events);
      c in cfg.clients && (cfg.clients[c].Waiting? || cfg.holder == Some(c))
    ensures
      var (cfg, next) := (Exec(served, START, events), Exec(served, START, events + [Panic(c)]));
      && next.clients == cfg.clients[c := Dead(cfg.clients[c].call)]
      && next.shared == cfg.shared
      && next.holder == (if cfg.holder == Some(c) then None else cfg.holder)
      && next.poisoned == (cfg.poisoned || cfg.holder == Some(c))
  {
    hide Perform, Apply, Section;
    StartSimulates(served);
    ExecSimulates(served, START, events);
    OneMore(served, events, Panic(c));
  }

  /** Poison is exactly the trace of a death inside a critical section: only
      such deaths are logged. */
  ghost predicate PoisonMatches(cfg: Config) {
    && (forall p :: 0 <= p < |cfg.log| ==> cfg.log[p].client in cfg.clients)
    && (cfg.poisoned <==> exists p :: 0 <= p < |cfg.log| && cfg.clients[cfg.log[p].client].Dead?)
  }

  lemma {:induction false} StepKeepsPoison(served: Served, cfg: Config, event: Event)
    requires Simulates(served, cfg) && PoisonMatches(cfg)
    ensures PoisonMatches(Step(served, cfg, event))
  {
    hide Perform, Apply, Section, SharedMatches, OrderMatches, AnswersMatch;
    var (c, next) := (event.client, Step(served, cfg, event));
    forall p | 0 <= p < |cfg.log|
      ensures next.log[p] == cfg.log[p] && cfg.log[p].client in cfg.clients
      ensures next.clients[cfg.log[p].client] == cfg.clients[cfg.log[p].client]
    {
      assert EntryMatches(cfg, cfg.log[p]);
    }
    if |next.log| > |cfg.log| {
      assert next.log[|cfg.log|].client == c;
    }
  }

  lemma {:induction false} ExecKeepsPoison(served: Served, cfg: Config, events: seq<Event>)
    requires Simulates(served, cfg) && PoisonMatches(cfg)
    ensures PoisonMatches(Exec(served, cfg, events))
    decreases |events|
  {
    hide Perform, Apply, Section, Step, Simulates, PoisonMatches;
    if events != [] {
      StepSimulates(served, cfg, events[0]);
      StepKeepsPoison(served, cfg, events[0]);
      ExecKeepsPoison(served, Step(served, cfg, events[0]), events[1..]);
    }
  }

  /** The lock is poisoned iff some client died in its critical section. */
  lemma {:induction false} PoisonedIff(served: Served, events: seq<Event>)
    ensures
      var cfg := Exec(served, START, events);
      && (forall p :: 0 <= p < |cfg.log| ==> cfg.log[p].client in cfg.clients)
      && (cfg.poisoned <==> exists p :: 0 <= p < |cfg.log| && cfg.clients[cfg.log[p].client].Dead?)
  {
    hide Exec;
    StartSimulates(served);
    ExecKeepsPoison(served, START, events);
  }

  // ------------------------------------------------ which runs schedules amount to

  /** Can a client's call amount to this operation in this state? To a spent
      number only where the create would be granted. */
  ghost predicate Possible(served: Served, state: State, entry: Logged) {
    match entry.op
    case Committed(call) => call == entry.call
    case NoEffect => !Malformed(served, entry.call)
    case BurnedId => entry.call.Create? && Perform(served, state, entry.call).1.Granted?
  }

  ghost predicate Realizable(served: Served, log: seq<Logged>) {
    && (forall p, q :: 0 <= p < q < |log| ==> log[p].client != log[q].client)
    && (forall p :: 0 <= p < |log| ==> Possible(served, Sequential(served, log).StateAt(p), log[p]))
  }

  predicate Logs(log: seq<Logged>, c: nat) {
    exists p :: 0 <= p < |log| && log[p].client == c
  }

  lemma {:induction false} RealizableSnoc(served: Served, log: seq<Logged>, entry: Logged)
    ensures Realizable(served, log + [entry])
            <==> && Realizable(served, log)
                 && !Logs(log, entry.client)
                 && Possible(served, Sequential(served, log).Final(), entry)
  {
    hide Perform, Apply, Possible;
    var longer := log + [entry];
    Append(served, log, entry);
    forall p | 0 <= p < |log|
      ensures longer[p] == log[p] && Sequential(served, longer).StateAt(p) == Sequential(served, log).StateAt(p)
    {
      PrefixState(served, Ops(log), [entry.op], p);
    }
    assert longer[|log|] == entry;
  }

  lemma EndIsPossible(served: Served, base: State, client: Client, shared: State, c: nat)
    requires Critical(client) && NeedsLock(served, client.call) && InSection(served, base, client, shared)
    ensures Possible(served, base, Logged(c, client.call, Remains(client)))
  {
    MalformedNeedsNoLock(served, client.call);
  }

  /** An event logs nothing, or one entry that its client's call can amount to. */
  lemma {:induction false} NewEntry(served: Served, cfg: Config, event: Event) returns (entry: Logged)
    requires Simulates(served, cfg)
    ensures
      var next := Step(served, cfg, event);
      next.log == cfg.log || (next.log == cfg.log + [entry] && Possible(served, Base(served, cfg), entry))
  {
    hide Perform, Apply, Section, Possible, InSection, Base, LockOrder, OrderMatches, AnswersMatch, LogMatches;
    var c := event.client;
    if c in cfg.clients {
      var client := cfg.clients[c];
      entry := Logged(c, client.call, Remains(client));
      if Critical(client) {
        EndIsPossible(served, Base(served, cfg), client, cfg.shared, c);
      }
    } else if event.Invoke? {
      entry := Logged(c, event.call, Committed(event.call));
      WholeCallIsPossible(served, Base(served, cfg), entry);
    } else {
      entry := Logged(c, ListCards, NoEffect);
    }
  }

  lemma {:induction false} StepStaysRealizable(served: Served, cfg: Config, event: Event)
    requires Simulates(served, cfg) && Realizable(served, cfg.log)
    ensures Realizable(served, Step(served, cfg, event).log)
  {
    hide Step, Perform, Apply, Section, Possible, SharedMatches, OrderMatches, AnswersMatch, Realizable;
    StepSimulates(served, cfg, event);
    var next := Step(served, cfg, event);
    var entry := NewEntry(served, cfg, event);
    if next.log != cfg.log {
      RealizableSnoc(served, cfg.log, entry);
      forall p | 0 <= p < |cfg.log|
        ensures cfg.log[p].client != entry.client
      {
        assert next.log[p] == cfg.log[p] && next.log[|cfg.log|] == entry;
      }
    }
  }

  lemma WholeCallIsPossible(served: Served, state: State, entry: Logged)
    requires entry.op == Committed(entry.call)
    ensures Possible(served, state, entry)
  {
  }

  lemma {:induction false} ExecStaysRealizable(served: Served, cfg: Config, events: seq<Event>)
    requires Simulates(served, cfg) && Realizable(served, cfg.log)
    ensures Realizable(served, Exec(served, cfg, events).log)
    decreases |events|
  {
    hide Perform, Apply, Section, Realizable;
    if events != [] {
      StepSimulates(served, cfg, events[0]);
      StepStaysRealizable(served, cfg, events[0]);
      ExecStaysRealizable(served, Step(served, cfg, events[0]), events[1..]);
    }
  }

  /** Nobody holds the lock, and every client is logged, so nobody waits. */
  ghost predicate Idle(served: Served, cfg: Config) {
    && Simulates(served, cfg) && cfg.holder == None
    && forall c :: c in cfg.clients ==> Logs(cfg.log, c)
  }

  /** The configuration after one more client has come and gone as logged. */
  ghost predicate Adds(cfg: Config, next: Config, entry: Logged) {
    && next.holder == None && next.log == cfg.log + [entry]
    && next.clients.Keys == cfg.clients.Keys + {entry.client}
    && (entry.op == Committed(entry.call) ==> next.clients[entry.client].Returned?)
    && (forall d :: d in cfg.clients ==> next.clients[d] == cfg.clients[d])
  }

  /** The first steps of a new client that is not refused at once. */
  lemma {:induction false} Enters(served: Served, cfg: Config, c: nat, call: Call) returns (next: Config)
    requires Simulates(served, cfg) && cfg.holder == None && c !in cfg.clients && NeedsLock(served, call)
    ensures next == Exec(served, cfg, [Invoke(c, call), Acquire(c)])
    ensures next == cfg.(holder := Some(c), clients := cfg.clients[c := Holding(call)], acquired := cfg.acquired + [c])
    ensures Simulates(served, next) && Base(served, next) == Base(served, cfg)
  {
    hide Perform, Apply, Section;
    var waiting := Step(served, cfg, Invoke(c, call));
    InvokeSimulates(served, cfg, c, call);
    AcquireSimulates(served, waiting, c);
    next := Step(served, waiting, Acquire(c));
    OneEvent(served, waiting, Acquire(c));
    assert [Invoke(c, call), Acquire(c)][1..] == [Acquire(c)];
  }

  lemma GrantedGetsBumped(served: Served, shared: State, call: Call)
    requires call.Create? && NeedsLock(served, call) && Perform(served, shared, call).1.Granted?
    ensures
      var (same, counted) := Section(served, shared, Holding(call));
      && same == shared && counted.Counted? && counted.call == call
      && Section(served, same, counted).1 == Bumped(call)
  {
  }

  /** Two steps take a create that would be granted past the counter bump. */
  lemma {:induction false} BumpsTheCounter(served: Served, cfg: Config, c: nat)
    requires Simulates(served, cfg) && cfg.holder == Some(c) && cfg.clients[c].Holding?
    requires cfg.clients[c].call.Create? && Perform(served, Base(served, cfg), cfg.clients[c].call).1.Granted?
    ensures
      var next := Exec(served, cfg, [Work(c), Work(c)]);
      && next.holder == Some(c) && next.log == cfg.log
      && next.clients == cfg.clients[c := Bumped(cfg.clients[c].call)]
  {
    hide Perform, Apply, Section;
    GrantedGetsBumped(served, cfg.shared, cfg.clients[c].call);
    var counted := Step(served, cfg, Work(c));
    OneEvent(served, counted, Work(c));
    assert [Work(c), Work(c)][1..] == [Work(c)];
  }

  lemma {:induction false} Dies(served: Served, cfg: Config, c: nat)
    requires Simulates(served, cfg) && cfg.holder == Some(c)
    ensures
      var (next, client) := (Exec(served, cfg, [Panic(c)]), cfg.clients[c]);
      && next.holder == None && next.clients == cfg.clients[c := Dead(client.call)]
      && next.log == cfg.log + [Logged(c, client.call, Remains(client))]
  {
    OneEvent(served, cfg, Panic(c));
  }

  /** Whatever a call can amount to, some continuation makes it amount to. */
  lemma {:induction false} ScheduleOne(served: Served, cfg: Config, entry: Logged) returns (events: seq<Event>)
    requires Idle(served, cfg) && entry.client !in cfg.clients && Possible(served, Base(served, cfg), entry)
    ensures Adds(cfg, Exec(served, cfg, events), entry)
  {
    hide Perform, Apply, Section, Exec, Simulates, Base, Malformed, NeedsLock;
    var (c, call) := (entry.client, entry.call);
    var enter := [Invoke(c, call), Acquire(c)];
    MalformedNeedsNoLock(served, call);
    if Malformed(served, call) {
      events := [Invoke(c, call)];
      OneEvent(served, cfg, Invoke(c, call));
      NotGranted(served, Base(served, cfg), call);
    } else {
      var holding := Enters(served, cfg, c, call);
      if entry.op == Committed(call) {
        var rest := HolderReturns(served, holding, c);
        events := enter + rest;
        ExecConcat(served, cfg, enter, rest);
      } else if entry.op == NoEffect {
        events := enter + [Panic(c)];
        Dies(served, holding, c);
        ExecConcat(served, cfg, enter, [Panic(c)]);
      } else {
        var two := [Work(c), Work(c)];
        BumpsTheCounter(served, holding, c);
        ExecSimulates(served, holding, two);
        Dies(served, Exec(served, holding, two), c);
        events := enter + (two + [Panic(c)]);
        ExecConcat(served, holding, two, [Panic(c)]);
        ExecConcat(served, cfg, enter, two + [Panic(c)]);
      }
    }
  }

  lemma NotGranted(served: Served, state: State, call: Call)
    requires Malformed(served, call)
    ensures !Perform(served, state, call).1.Granted?
  {
    MalformedNeedsNoLock(served, call);
    RejectedEverywhere(served, state, call);
  }

  lemma {:induction false} StaysIdle(served: Served, cfg: Config, next: Config, entry: Logged)
    requires Idle(served, cfg) && Simulates(served, next) && Adds(cfg, next, entry)
    ensures Idle(served, next)
  {
    hide Simulates;
    forall c | c in next.clients
      ensures Logs(next.log, c)
    {
      if c in cfg.clients {
        var p :| 0 <= p < |cfg.log| && cfg.log[p].client == c;
        assert next.log[p].client == c;
      } else {
        assert next.log[|cfg.log|].client == c;
      }
    }
  }

  /** Every realizable log is the log of some schedule, in which each whole call
      returns to its client. */
  lemma {:induction false} EveryLogIsScheduled(served: Served, log: seq<Logged>) returns (events: seq<Event>)
    requires Realizable(served, log)
    ensures
      var cfg := Exec(served, START, events);
      && Idle(served, cfg) && cfg.log == log
      && forall p :: 0 <= p < |log| && log[p].op == Committed(log[p].call) ==>
           log[p].client in cfg.clients && cfg.clients[log[p].client].Returned?
  {
    hide Perform, Apply, Section, Simulates, Possible, Step, Realizable, Logs;
    if log == [] {
      events := [];
      StartSimulates(served);
    } else {
      var init, entry := log[..|log| - 1], log[|log| - 1];
      assert log == init + [entry];
      RealizableSnoc(served, init, entry);
      var before := EveryLogIsScheduled(served, init);
      var cfg := Exec(served, START, before);
      var one := ScheduleOne(served, cfg, entry);
      events := before + one;
      ExecConcat(served, START, before, one);
      StartSimulates(served);
      ExecSimulates(served, START, events);
      StaysIdle(served, cfg, Exec(served, START, events), entry);
    }
  }

  /** The runs that schedules amount to are exactly those in which each client's
      call ends as the call alone could end in the state it finds. */
  lemma {:induction false} SchedulesAreRuns(served: Served, log: seq<Logged>)
    ensures (exists events :: Exec(served, START, events).log == log) <==> Realizable(served, log)
  {
    hide Exec, Realizable;
    if events :| Exec(served, START, events).log == log {
      StartSimulates(served);
      NothingIsRealizable(served);
      ExecStaysRealizable(served, START, events);
    }
    if Realizable(served, log) {
      var events := EveryLogIsScheduled(served, log);
    }
  }

  lemma NothingIsRealizable(served: Served)
    ensures Realizable(served, START.log)
  {
  }

  /** The log in which client i makes the i-th call and gets its answer. */
  function AllWhole(calls: seq<Call>): seq<Logged> {
    seq(|calls|, i requires 0 <= i < |calls| => Logged(i, calls[i], Committed(calls[i])))
  }

  function WholeOps(calls: seq<Call>): seq<Op> {
    seq(|calls|, i requires 0 <= i < |calls| => Committed(calls[i]))
  }

  /** Completeness. Every sequence of calls has a schedule that returns the i-th
      call to client i with the outcome it has when the calls run one at a time,
      and leaves the state they lead to. */
  lemma {:induction false} EveryCallSequenceIsScheduled(served: Served, calls: seq<Call>)
    returns (events: seq<Event>)
    ensures
      var (cfg, run) := (Exec(served, START, events), Run(served, WholeOps(calls)));
      && cfg.holder == None && cfg.shared == run.Final()
      && forall i: nat :: i < |calls| ==>
           i in cfg.clients
           && cfg.clients[i] == Returned(calls[i], Perform(served, run.StateAt(i), calls[i]).1)
  {
    hide Perform, Apply, Section, Exec, Realizable, AnsweredAt;
    var log := AllWhole(calls);
    AllWholeIsRealizable(served, calls);
    events := EveryLogIsScheduled(served, log);
    assert Ops(log) == WholeOps(calls);
    forall i: nat | i < |calls|
      ensures
        var cfg := Exec(served, START, events);
        i in cfg.clients
        && cfg.clients[i] == Returned(calls[i], Perform(served, Run(served, WholeOps(calls)).StateAt(i), calls[i]).1)
    {
      assert log[i] == Logged(i, calls[i], Committed(calls[i]));
      var p := AnswerPosition(served, events, i);
      OwnAnswer(served, calls, Exec(served, START, events).clients[i], i, p);
    }
  }

  lemma {:induction false} OwnAnswer(served: Served, calls: seq<Call>, client: Client, i: nat, p: nat)
    requires i < |calls| && AnsweredAt(served, AllWhole(calls), i, client, p)
    ensures client == Returned(calls[i], Perform(served, Run(served, WholeOps(calls)).StateAt(i), calls[i]).1)
  {
    hide Perform, Apply;
    assert Ops(AllWhole(calls)) == WholeOps(calls);
  }

  lemma {:induction false} AllWholeIsRealizable(served: Served, calls: seq<Call>)
    ensures Realizable(served, AllWhole(calls))
  {
    hide Perform, Apply;
    var log := AllWhole(calls);
    forall p | 0 <= p < |log|
      ensures Possible(served, Sequential(served, log).StateAt(p), log[p])
    {
      WholeCallIsPossible(served, Sequential(served, log).StateAt(p), log[p]);
    }
  }
}
