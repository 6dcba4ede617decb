/** Many clients calling one adapter at once. A call checks its request without
    the lock, waits for the mutex, works on the shared state in small steps
    while it holds the guard, and returns; it may also die at any of these
    points, which poisons the mutex, and the poison is ignored. A schedule is
    any list of events; an event that cannot happen changes nothing. */
module Concurrency {
  import opened Wrappers
  import opened MachineInts
  import opened OrderedMap
  import opened Words
  import opened Runtime
  import opened RuntimeLaws
  import opened Runs

  datatype Client =
    | Waiting(call: Call)                     // checks passed, no guard yet
    | Holding(call: Call)                     // has the guard, nothing done
    | Counted(call: Call, reserved: u16)      // create: the fold is done
    | Bumped(call: Call)                      // create: counter moved, entry not inserted
    | Finished(call: Call, outcome: Outcome)  // result ready, guard still held
    | Returned(call: Call, outcome: Outcome)
    | Dead(call: Call)

  /** A call whose effect is complete, and what that effect was. */
  datatype Logged = Logged(client: nat, call: Call, op: Op)

  datatype Config = Config(
    shared: State,
    holder: Option<nat>,
    poisoned: bool,
    clients: map<nat, Client>,
    acquired: seq<nat>,
    log: seq<Logged>)

  datatype Event =
    | Invoke(client: nat, call: Call)
    | Acquire(client: nat)
    | Work(client: nat)
    | Unlock(client: nat)
    | Panic(client: nat)

  const START := Config(INITIAL_STATE, None, false, map[], [], [])

  predicate Critical(client: Client) {
    client.Holding? || client.Counted? || client.Bumped? || client.Finished?
  }

  /** Does the call get past the checks it makes before locking? */
  predicate NeedsLock(served: Served, call: Call) {
    match call
    case Create(request, _) => ValidateCreate(served, request).Success?
    case Chat(chat, _) => ValidateChat(served, chat).Success?
    case _ => true
  }

  /** The answer to a call that does not. */
  function Rejection(served: Served, call: Call): Outcome
    requires !NeedsLock(served, call)
  {
    match call
    case Create(request, _) => Failed(ValidateCreate(served, request).error)
    case Chat(chat, _) => Failed(ValidateChat(served, chat).error)
  }

  /** One step of the critical section of the client that holds the guard. */
  function Section(served: Served, shared: State, client: Client): (State, Client)
    requires Critical(client) && NeedsLock(served, client.call)
  {
    match client
    case Holding(Create(request, now)) =>
      var model := ValidateCreate(served, request).value;
      (shared, Counted(client.call, ReservedSlotsForModel(shared, model.id)))
    case Counted(Create(request, now), reserved) =>
      var model := ValidateCreate(served, request).value;
      var available := AvailableSlots(model, reserved);
      if request.requestedSlots > available then
        (shared, Finished(client.call, Failed(ModelCapacityExceeded(model.id, request.requestedSlots, available))))
      else
        (BumpReservationId(shared), Bumped(client.call))
    case Bumped(Create(request, now)) =>
      var model := ValidateCreate(served, request).value;
      var reservation := NewReservation(shared, model, request, now);
      (InsertReservation(shared, reservation), Finished(client.call, Granted(reservation)))
    case Holding(call) =>
      var (after, outcome) := Perform(served, shared, call);
      (after, Finished(call, outcome))
    case _ => (shared, client)
  }

  /** What a critical section amounts to if it ends here. */
  function Remains(client: Client): Op {
    if client.Bumped? then BurnedId
    else if client.Finished? then Committed(client.call)
    else NoEffect
  }

  function Leave(cfg: Config, c: nat, after: Client, poisoned: bool): Config
    requires c in cfg.clients
  {
    var client := cfg.clients[c];
    cfg.(holder := None, poisoned := poisoned, clients := cfg.clients[c := after],
         log := cfg.log + [Logged(c, client.call, Remains(client))])
  }

  function Step(served: Served, cfg: Config, event: Event): Config {
    var c := event.client;
    match event
    case Invoke(_, call) =>
      if c in cfg.clients then cfg
      else if NeedsLock(served, call) then
        cfg.(clients := cfg.clients[c := Waiting(call)])
      else
        cfg.(clients := cfg.clients[c := Returned(call, Rejection(served, call))],
             log := cfg.log + [Logged(c, call, Committed(call))])
    case Acquire(_) =>
      if c in cfg.clients && cfg.clients[c].Waiting? && cfg.holder == None then
        cfg.(holder := Some(c), clients := cfg.clients[c := Holding(cfg.clients[c].call)],
             acquired := cfg.acquired + [c])
      else cfg
    case Work(_) =>
      if c in cfg.clients && Critical(cfg.clients[c]) && NeedsLock(served, cfg.clients[c].call) then
        var (after, client) := Section(served, cfg.shared, cfg.clients[c]);
        cfg.(shared := after, clients := cfg.clients[c := client])
      else cfg
    case Unlock(_) =>
      if c in cfg.clients && cfg.clients[c].Finished? then
        Leave(cfg, c, Returned(cfg.clients[c].call, cfg.clients[c].outcome), cfg.poisoned)
      else cfg
    case Panic(_) =>
      if c !in cfg.clients then cfg
      else if cfg.clients[c].Waiting? then
        cfg.(clients := cfg.clients[c := Dead(cfg.clients[c].call)])
      else if Critical(cfg.clients[c]) then
        Leave(cfg, c, Dead(cfg.clients[c].call), true)
      else cfg
  }

  function Exec(served: Served, cfg: Config, events: seq<Event>): Config
    decreases |events|
  {
    if events == [] then cfg else Exec(served, Step(served, cfg, events[0]), events[1..])
  }

  // ------------------------------------------------ the sequential run in the log

  function Ops(log: seq<Logged>): seq<Op> {
    seq(|log|, i requires 0 <= i < |log| => log[i].op)
  }

  /** The calls in the log, one at a time, in log order. */
  function Sequential(served: Served, log: seq<Logged>): Run {
    Run(served, Ops(log))
  }

  function Base(served: Served, cfg: Config): State {
    Sequential(served, cfg.log).Final()
  }

  /** The result of the p-th logged call when the calls run one at a time. */
  function SequentialOutcome(served: Served, log: seq<Logged>, p: nat): Outcome
    requires p < |log|
  {
    Perform(served, Sequential(served, log).StateAt(p), log[p].call).1
  }

  /** The clients in the log that took the lock, in log order. */
  function LockOrder(served: Served, log: seq<Logged>): seq<nat> {
    if log == [] then []
    else
      var last := log[|log| - 1];
      LockOrder(served, log[..|log| - 1]) + if NeedsLock(served, last.call) then [last.client] else []
  }

  // ------------------------------------------------------------ simulation relation

  /** How far the holder's section is from the last completed state. */
  ghost predicate InSection(served: Served, base: State, client: Client, shared: State) {
    match client
    case Holding(_) => shared == base
    case Counted(Create(request, _), reserved) =>
      && ValidateCreate(served, request).Success?
      && shared == base
      && reserved == ReservedSlotsForModel(base, ValidateCreate(served, request).value.id)
    case Bumped(Create(request, _)) =>
      && ValidateCreate(served, request).Success?
      && shared == BumpReservationId(base)
      && var model := ValidateCreate(served, request).value;
         request.requestedSlots <= AvailableSlots(model, ReservedSlotsForModel(base, model.id))
    case Finished(call, outcome) => Perform(served, base, call) == (shared, outcome)
    case _ => false
  }

  ghost predicate MutualExclusion(cfg: Config) {
    && (forall c :: c in cfg.clients && Critical(cfg.clients[c]) ==> cfg.holder == Some(c))
    && (cfg.holder.Some? ==> cfg.holder.value in cfg.clients && Critical(cfg.clients[cfg.holder.value]))
  }

  ghost predicate CallsPassedChecks(served: Served, cfg: Config) {
    forall c :: c in cfg.clients && (cfg.clients[c].Waiting? || Critical(cfg.clients[c])) ==>
      NeedsLock(served, cfg.clients[c].call)
  }

  ghost predicate SharedMatches(served: Served, cfg: Config) {
    match cfg.holder
    case None => cfg.shared == Base(served, cfg)
    case Some(c) => c in cfg.clients && InSection(served, Base(served, cfg), cfg.clients[c], cfg.shared)
  }

  ghost predicate OrderMatches(served: Served, cfg: Config) {
    cfg.acquired == LockOrder(served, cfg.log) + if cfg.holder.Some? then [cfg.holder.value] else []
  }

  /** Log entries have distinct clients, and each is what its client's call
      amounted to. */
  ghost predicate LogMatches(cfg: Config) {
    && (forall p, q :: 0 <= p < q < |cfg.log| ==> cfg.log[p].client != cfg.log[q].client)
    && (forall p :: 0 <= p < |cfg.log| ==> EntryMatches(cfg, cfg.log[p]))
  }

  /** A returned client's entry is its whole call. A dead client's is its whole
      call, or nothing, or, only for a create, a spent number. */
  ghost predicate EntryMatches(cfg: Config, entry: Logged) {
    && entry.client in cfg.clients
    && match cfg.clients[entry.client]
       case Returned(call, _) => entry.call == call && entry.op == Committed(call)
       case Dead(call) => entry.call == call && (entry.op == Committed(call) || Unfinished(entry))
       case _ => false
  }

  predicate Unfinished(entry: Logged) {
    entry.op == NoEffect || (entry.op == BurnedId && entry.call.Create?)
  }

  /** The p-th log entry is the client's call, with the client's outcome. */
  ghost predicate AnsweredAt(served: Served, log: seq<Logged>, c: nat, client: Client, p: nat) {
    && client.Returned? && p < |log|
    && log[p] == Logged(c, client.call, Committed(client.call))
    && client.outcome == SequentialOutcome(served, log, p)
  }

  ghost predicate AnswersMatch(served: Served, cfg: Config) {
    forall c :: c in cfg.clients && cfg.clients[c].Returned? ==>
      exists p :: AnsweredAt(served, cfg.log, c, cfg.clients[c], p)
  }

  ghost predicate Simulates(served: Served, cfg: Config) {
    && MutualExclusion(cfg)
    && CallsPassedChecks(served, cfg)
    && SharedMatches(served, cfg)
    && OrderMatches(served, cfg)
    && LogMatches(cfg)
    && AnswersMatch(served, cfg)
  }

  // --------------------------------------------------------------- section lemmas

  /** A call refused before locking is refused in every state, and changes none. */
  lemma RejectedEverywhere(served: Served, state: State, call: Call)
    requires !NeedsLock(served, call)
    ensures Perform(served, state, call) == (state, Rejection(served, call))
  {
  }

  /** A request with one of the faults that are found without the lock. */
  predicate Malformed(served: Served, call: Call) {
    match call
    case Create(request, _) =>
      Blank(request.consumer) || request.requestedSlots == 0 || Get(served.models, request.model).None?
    case Chat(chat, _) => Get(served.models, chat.model).None? || chat.stream || chat.messages == []
    case _ => false
  }

  lemma MalformedNeedsNoLock(served: Served, call: Call)
    ensures NeedsLock(served, call) <==> !Malformed(served, call)
  {
    if call.Create? {
      TrimEmpty(call.request.consumer);
    }
  }

  lemma SectionStep(served: Served, base: State, client: Client, shared: State)
    requires Critical(client) && NeedsLock(served, client.call)
    requires InSection(served, base, client, shared)
    ensures
      var (after, next) := Section(served, shared, client);
      Critical(next) && next.call == client.call && InSection(served, base, next, after)
  {
  }

  /** Ending a section anywhere leaves the state of the operation it amounts to. */
  lemma SectionEnd(served: Served, base: State, client: Client, shared: State)
    requires InSection(served, base, client, shared)
    ensures shared == Apply(served, base, Remains(client))
  {
  }

  lemma {:induction false} Append(served: Served, log: seq<Logged>, entry: Logged)
    ensures Ops(log + [entry]) == Ops(log) + [entry.op]
    ensures Sequential(served, log + [entry]).StateAt(|log|) == Sequential(served, log).Final()
    ensures Sequential(served, log + [entry]).Final() == Apply(served, Sequential(served, log).Final(), entry.op)
    ensures LockOrder(served, log + [entry])
            == LockOrder(served, log) + if NeedsLock(served, entry.call) then [entry.client] else []
  {
    assert Ops(log + [entry]) == Ops(log) + [entry.op];
    ExtendState(served, Ops(log), entry.op);
    assert (log + [entry])[..|log|] == log;
  }

  /** Answers stay right as the log grows. */
  lemma {:induction false} AnswersGrow(
    served: Served, log: seq<Logged>, more: seq<Logged>, c: nat, client: Client, p: nat)
    requires AnsweredAt(served, log, c, client, p)
    ensures AnsweredAt(served, log + more, c, client, p)
  {
    hide Perform, Apply;
    PrefixState(served, Ops(log), Ops(more), p);
    assert Ops(log + more) == Ops(log) + Ops(more);
  }

  // ------------------------------------------------------------------ every event

  lemma {:induction false} LogUntouched(cfg: Config, next: Config, c: nat)
    requires LogMatches(cfg) && next.log == cfg.log
    requires c in cfg.clients ==> !cfg.clients[c].Returned? && !cfg.clients[c].Dead?
    requires forall d :: d in cfg.clients && d != c ==> d in next.clients && next.clients[d] == cfg.clients[d]
    ensures LogMatches(next)
  {
  }

  /** Every client but c keeps its answer. */
  lemma {:induction false} OldAnswers(served: Served, cfg: Config, next: Config, c: nat, more: seq<Logged>)
    requires AnswersMatch(served, cfg) && next.log == cfg.log + more
    requires forall d :: d in next.clients && d != c ==> d in cfg.clients && next.clients[d] == cfg.clients[d]
    ensures forall d :: d in next.clients && d != c && next.clients[d].Returned? ==>
              exists p :: AnsweredAt(served, next.log, d, next.clients[d], p)
  {
    hide Perform, Apply;
    forall d | d in next.clients && d != c && next.clients[d].Returned?
      ensures exists p :: AnsweredAt(served, next.log, d, next.clients[d], p)
    {
      var p: nat :| AnsweredAt(served, cfg.log, d, cfg.clients[d], p);
      AnswersGrow(served, cfg.log, more, d, cfg.clients[d], p);
    }
  }

  lemma {:induction false} AnswersKept(served: Served, cfg: Config, next: Config, c: nat)
    requires AnswersMatch(served, cfg) && next.log == cfg.log
    requires forall d :: d in next.clients && d != c ==> d in cfg.clients && next.clients[d] == cfg.clients[d]
    requires c in next.clients ==> !next.clients[c].Returned?
    ensures AnswersMatch(served, next)
  {
    hide Perform, Apply;
  }

  /** A finished call is added to the log, with its client's answer if it has one. */
  lemma {:induction false} EntryAdded(served: Served, cfg: Config, next: Config, entry: Logged)
    requires LogMatches(cfg) && next.log == cfg.log + [entry]
    requires entry.client in cfg.clients ==> !cfg.clients[entry.client].Returned? && !cfg.clients[entry.client].Dead?
    requires entry.client in next.clients && next.clients == cfg.clients[entry.client := next.clients[entry.client]]
    requires EntryMatches(next, entry)
    ensures LogMatches(next)
  {
  }

  lemma {:induction false} AnswerAdded(served: Served, cfg: Config, next: Config, entry: Logged)
    requires AnswersMatch(served, cfg) && next.log == cfg.log + [entry]
    requires entry.client in next.clients && next.clients == cfg.clients[entry.client := next.clients[entry.client]]
    requires
      var client := next.clients[entry.client];
      client.Returned? ==>
        client.call == entry.call && entry.op == Committed(entry.call)
        && client.outcome == Perform(served, Base(served, cfg), entry.call).1
    ensures AnswersMatch(served, next)
  {
    hide Perform, Apply;
    OldAnswers(served, cfg, next, entry.client, [entry]);
    Append(served, cfg.log, entry);
    var client := next.clients[entry.client];
    if client.Returned? {
      assert AnsweredAt(served, next.log, entry.client, client, |cfg.log|);
    }
  }

  lemma {:induction false} SharedAdvances(served: Served, cfg: Config, next: Config, entry: Logged)
    requires OrderMatches(served, cfg) && next.log == cfg.log + [entry] && next.acquired == cfg.acquired
    requires next.shared == Apply(served, Base(served, cfg), entry.op) && next.holder == None
    requires cfg.holder == if NeedsLock(served, entry.call) then Some(entry.client) else None
    ensures SharedMatches(served, next) && OrderMatches(served, next)
  {
    hide Perform, Apply;
    Append(served, cfg.log, entry);
  }

  lemma {:induction false} RejectionKeepsBase(served: Served, cfg: Config, next: Config, c: nat, call: Call)
    requires !NeedsLock(served, call) && next.log == cfg.log + [Logged(c, call, Committed(call))]
    ensures Base(served, next) == Base(served, cfg) && LockOrder(served, next.log) == LockOrder(served, cfg.log)
  {
    hide Perform;
    Append(served, cfg.log, Logged(c, call, Committed(call)));
    RejectedEverywhere(served, Base(served, cfg), call);
  }

  lemma {:induction false} SharedKept(served: Served, cfg: Config, next: Config)
    requires SharedMatches(served, cfg) && OrderMatches(served, cfg)
    requires next.shared == cfg.shared && next.holder == cfg.holder && next.acquired == cfg.acquired
    requires Base(served, next) == Base(served, cfg) && LockOrder(served, next.log) == LockOrder(served, cfg.log)
    requires cfg.holder.Some? ==> cfg.holder.value in next.clients && cfg.holder.value in cfg.clients
                                  && next.clients[cfg.holder.value] == cfg.clients[cfg.holder.value]
    ensures SharedMatches(served, next) && OrderMatches(served, next)
  {
    hide Perform, Apply;
  }

  /** A call refused before locking is logged at once, even while the lock is
      held: it changes no state, so the holder's section counts from the same one. */
  lemma {:induction false} RejectionSimulates(served: Served, cfg: Config, c: nat, call: Call)
    requires Simulates(served, cfg) && c !in cfg.clients && !NeedsLock(served, call)
    ensures Simulates(served, Step(served, cfg, Invoke(c, call)))
  {
    hide Perform, Apply, Section, Base, LockOrder;
    var next := Step(served, cfg, Invoke(c, call));
    var entry := Logged(c, call, Committed(call));
    RejectionKeepsBase(served, cfg, next, c, call);
    SharedKept(served, cfg, next);
    RejectedEverywhere(served, Base(served, cfg), call);
    EntryAdded(served, cfg, next, entry);
    AnswerAdded(served, cfg, next, entry);
  }

  /** A client without the guard starts to wait, or dies waiting. */
  lemma {:induction false} OutsiderSimulates(served: Served, cfg: Config, c: nat, client: Client)
    requires Simulates(served, cfg)
    requires c in cfg.clients ==> cfg.clients[c].Waiting?
    requires client.Dead? || (client.Waiting? && NeedsLock(served, client.call))
    ensures Simulates(served, cfg.(clients := cfg.clients[c := client]))
  {
    hide Perform, Apply;
    var next := cfg.(clients := cfg.clients[c := client]);
    assert MutualExclusion(next) && CallsPassedChecks(served, next);
    LogUntouched(cfg, next, c);
    AnswersKept(served, cfg, next, c);
    SharedKept(served, cfg, next);
  }

  lemma {:induction false} InvokeSimulates(served: Served, cfg: Config, c: nat, call: Call)
    requires Simulates(served, cfg)
    ensures Simulates(served, Step(served, cfg, Invoke(c, call)))
  {
    hide Perform, Apply, Section;
    if c !in cfg.clients {
      if NeedsLock(served, call) {
        OutsiderSimulates(served, cfg, c, Waiting(call));
      } else {
        RejectionSimulates(served, cfg, c, call);
      }
    }
  }

  lemma {:induction false} AcquireSimulates(served: Served, cfg: Config, c: nat)
    requires Simulates(served, cfg)
    ensures Simulates(served, Step(served, cfg, Acquire(c)))
  {
    hide Perform, Apply, Section, Base, LockOrder, AnsweredAt;
    var next := Step(served, cfg, Acquire(c));
    if next != cfg {
      LogUntouched(cfg, next, c);
      AnswersKept(served, cfg, next, c);
      SameBase(served, cfg, next);
    }
  }

  lemma SameBase(served: Served, cfg: Config, next: Config)
    requires next.log == cfg.log
    ensures Base(served, next) == Base(served, cfg)
  {
  }

  lemma {:induction false} HolderAdvances(served: Served, cfg: Config, next: Config, c: nat)
    requires Simulates(served, cfg) && c in cfg.clients && Critical(cfg.clients[c]) && c in next.clients
    requires next == cfg.(shared := next.shared, clients := cfg.clients[c := next.clients[c]])
    requires Critical(next.clients[c]) && next.clients[c].call == cfg.clients[c].call
    requires InSection(served, Base(served, cfg), next.clients[c], next.shared)
    ensures Simulates(served, next)
  {
    hide Perform, Apply;
    LogUntouched(cfg, next, c);
    AnswersKept(served, cfg, next, c);
  }

  lemma {:induction false} WorkSimulates(served: Served, cfg: Config, c: nat)
    requires Simulates(served, cfg)
    ensures Simulates(served, Step(served, cfg, Work(c)))
  {
    hide Perform, Apply;
    if c in cfg.clients && Critical(cfg.clients[c]) {
      SectionStep(served, Base(served, cfg), cfg.clients[c], cfg.shared);
      HolderAdvances(served, cfg, Step(served, cfg, Work(c)), c);
    }
  }

  /** Giving up the guard, by returning or by dying. */
  lemma {:induction false} LeaveSimulates(served: Served, cfg: Config, c: nat, after: Client, poisoned: bool)
    requires Simulates(served, cfg) && c in cfg.clients && Critical(cfg.clients[c])
    requires after.call == cfg.clients[c].call
    requires after.Dead? || (after.Returned? && cfg.clients[c].Finished? && after.outcome == cfg.clients[c].outcome)
    ensures Simulates(served, Leave(cfg, c, after, poisoned))
  {
    hide Perform, Apply;
    var next := Leave(cfg, c, after, poisoned);
    var client := cfg.clients[c];
    var entry := Logged(c, client.call, Remains(client));
    assert SharedMatches(served, next) && OrderMatches(served, next) by {
      SectionEnd(served, Base(served, cfg), client, cfg.shared);
      SharedAdvances(served, cfg, next, entry);
    }
    assert client.Bumped? ==> client.call.Create?;
    EntryAdded(served, cfg, next, entry);
    AnswerAdded(served, cfg, next, entry);
  }

  lemma PanicSimulates(served: Served, cfg: Config, c: nat)
    requires Simulates(served, cfg)
    ensures Simulates(served, Step(served, cfg, Panic(c)))
  {
    hide Perform, Apply, Section, Leave, Simulates;
    if c in cfg.clients && Critical(cfg.clients[c]) {
      LeaveSimulates(served, cfg, c, Dead(cfg.clients[c].call), true);
    } else if c in cfg.clients && cfg.clients[c].Waiting? {
      OutsiderSimulates(served, cfg, c, Dead(cfg.clients[c].call));
    }
  }

  lemma StepSimulates(served: Served, cfg: Config, event: Event)
    requires Simulates(served, cfg)
    ensures Simulates(served, Step(served, cfg, event))
  {
    hide Perform, Apply, Section;
    match event
    case Invoke(c, call) => InvokeSimulates(served, cfg, c, call);
    case Acquire(c) => AcquireSimulates(served, cfg, c);
    case Work(c) => WorkSimulates(served, cfg, c);
    case Unlock(c) =>
      if c in cfg.clients && cfg.clients[c].Finished? {
        LeaveSimulates(served, cfg, c, Returned(cfg.clients[c].call, cfg.clients[c].outcome), cfg.poisoned);
      }
    case Panic(c) => PanicSimulates(served, cfg, c);
  }

  lemma {:induction false} ExecSimulates(served: Served, cfg: Config, events: seq<Event>)
    requires Simulates(served, cfg)
    ensures Simulates(served, Exec(served, cfg, events))
    decreases |events|
  {
    hide Perform, Apply, Section;
    if events != [] {
      StepSimulates(served, cfg, events[0]);
      ExecSimulates(served, Step(served, cfg, events[0]), events[1..]);
    }
  }

  lemma StartSimulates(served: Served)
    ensures Simulates(served, START)
  {
  }

  // --------------------------------------------------------------- main theorems

  /** Linearizability. After any schedule, running the logged operations one at a
      time gives every returned client its result and, when the lock is free, the
      shared state; each client is logged once, with its own whole call unless it
      died inside it; the log is in lock-acquisition order; and exactly the holder
      of the lock is in its critical section. */
  lemma {:induction false} Linearizable(served: Served, events: seq<Event>)
    ensures
      var cfg := Exec(served, START, events);
      && (cfg.holder == None ==> cfg.shared == Sequential(served, cfg.log).Final())
      && (forall c :: c in cfg.clients && cfg.clients[c].Returned? ==>
            exists p :: AnsweredAt(served, cfg.log, c, cfg.clients[c], p))
      && (forall p, q :: 0 <= p < q < |cfg.log| ==> cfg.log[p].client != cfg.log[q].client)
      && (forall p :: 0 <= p < |cfg.log| ==> EntryMatches(cfg, cfg.log[p]))
      && cfg.acquired == LockOrder(served, cfg.log) + (if cfg.holder.Some? then [cfg.holder.value] else [])
      && (forall c :: c in cfg.clients ==> (Critical(cfg.clients[c]) <==> cfg.holder == Some(c)))
      && ((forall c :: c in cfg.clients ==> !cfg.clients[c].Dead?) ==>
            forall p :: 0 <= p < |cfg.log| ==> cfg.log[p].op == Committed(cfg.log[p].call))
  {
    StartSimulates(served);
    ExecSimulates(served, START, events);
  }

  lemma {:induction false} LogGrows(served: Served, cfg: Config, events: seq<Event>)
    ensures cfg.log <= Exec(served, cfg, events).log
    decreases |events|
  {
    if events != [] {
      LogGrows(served, Step(served, cfg, events[0]), events[1..]);
    }
  }

  lemma {:induction false} ExecConcat(served: Served, cfg: Config, a: seq<Event>, b: seq<Event>)
    ensures Exec(served, cfg, a + b) == Exec(served, Exec(served, cfg, a), b)
    decreases |a|
  {
    if a == [] {
      assert a + b == b;
    } else {
      assert (a + b)[1..] == a[1..] + b;
      ExecConcat(served, Step(served, cfg, a[0]), a[1..], b);
    }
  }

  /** The sequential order respects real time: a call that had returned before
      another was made comes first. */
  lemma {:induction false} RealTimeOrder(
    served: Served, before: seq<Event>, after: seq<Event>, a: nat, b: nat, p: nat, q: nat)
    requires
      var early := Exec(served, START, before);
      a in early.clients && early.clients[a].Returned? && b !in early.clients
    requires
      var late := Exec(served, START, before + after);
      p < |late.log| && q < |late.log| && late.log[p].client == a && late.log[q].client == b
    ensures p < q
  {
    var early := Exec(served, START, before);
    var late := Exec(served, START, before + after);
    StartSimulates(served);
    ExecSimulates(served, START, before);
    ExecSimulates(served, START, before + after);
    ExecConcat(served, START, before, after);
    LogGrows(served, early, after);
    LogKeepsOrder(served, early, late, a, b, p, q);
  }

  lemma OnePosition(log: seq<Logged>, p: nat, q: nat)
    requires forall i, j :: 0 <= i < j < |log| ==> log[i].client != log[j].client
    requires p < |log| && q < |log| && log[p].client == log[q].client
    ensures p == q
  {
  }

  lemma {:induction false} LogKeepsOrder(served: Served, early: Config, late: Config, a: nat, b: nat, p: nat, q: nat)
    requires LogMatches(early) && AnswersMatch(served, early) && LogMatches(late) && early.log <= late.log
    requires a in early.clients && early.clients[a].Returned? && b !in early.clients
    requires p < |late.log| && q < |late.log| && late.log[p].client == a && late.log[q].client == b
    ensures p < q
  {
    hide Perform, Apply;
    assert forall i :: 0 <= i < |early.log| ==> EntryMatches(early, early.log[i]) && early.log[i].client != b;
    var r: nat :| AnsweredAt(served, early.log, a, early.clients[a], r);
    OnePosition(late.log, p, r);
  }

  /** Panic tolerance. Whatever clients die wherever they are, the state they
      leave, even in the middle of a section, satisfies the full invariant. */
  lemma {:induction false} PanicTolerance(served: Served, events: seq<Event>)
    requires WellFormed(served)
    ensures Inv(served, Exec(served, START, events).shared)
  {
    StartSimulates(served);
    ExecSimulates(served, START, events);
    var cfg := Exec(served, START, events);
    var run := Sequential(served, cfg.log);
    EveryRunKeepsInv(run, |run.ops|);
    if cfg.holder.Some? {
      var client := cfg.clients[cfg.holder.value];
      SectionEnd(served, run.Final(), client, cfg.shared);
      match Remains(client)
      case Committed(call) => PerformKeepsInv(served, run.Final(), call);
      case BurnedId => BumpKeepsInv(served, run.Final());
      case NoEffect =>
    }
  }
}
