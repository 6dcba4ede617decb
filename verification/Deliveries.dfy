/** What clients are answered, in every schedule. */
module Deliveries {
  import opened Wrappers
  import opened MachineInts
  import opened Runtime
  import opened RuntimeLaws
  import opened Histories
  import opened Runs
  import opened Concurrency

  /** The position of a client's answer in the sequential run. */
  lemma {:induction false} AnswerPosition(served: Served, events: seq<Event>, c: nat) returns (p: nat)
    requires
      var cfg := Exec(served, START, events);
      c in cfg.clients && cfg.clients[c].Returned?
    ensures
      var cfg := Exec(served, START, events);
      AnsweredAt(served, cfg.log, c, cfg.clients[c], p)
  {
    hide Perform, Apply, Section;
    StartSimulates(served);
    ExecSimulates(served, START, events);
    var cfg := Exec(served, START, events);
    p :| AnsweredAt(served, cfg.log, c, cfg.clients[c], p);
  }

  lemma {:induction false} AnswerEffect(served: Served, log: seq<Logged>, c: nat, client: Client, p: nat)
    requires AnsweredAt(served, log, c, client, p)
    ensures client.outcome.Granted? ==>
              Sequential(served, log).Effects()[p] == Grant(client.outcome.reservation)
    ensures client.outcome.Released? ==>
              client.call.Release? && Sequential(served, log).Effects()[p] == Free(client.call.reservationId)
    ensures client.outcome.Completed? ==>
              && Sequential(served, log).CompletedAt(p)
              && Sequential(served, log).CompletionIdAt(p) == client.outcome.response.id
  {
  }

  /** Every returned client has the answer promised for its own call in the
      state that the sequential run is in where the call stands. */
  lemma {:induction false} DeliveredAnswersExact(served: Served, events: seq<Event>, c: nat) returns (p: nat)
    requires WellFormed(served)
    requires
      var cfg := Exec(served, START, events);
      c in cfg.clients && cfg.clients[c].Returned?
    ensures
      var cfg := Exec(served, START, events);
      && AnsweredAt(served, cfg.log, c, cfg.clients[c], p)
      && Answers(served, Sequential(served, cfg.log).StateAt(p), cfg.clients[c].call, cfg.clients[c].outcome)
  {
    hide Perform, Apply, Section, Exec, Answers;
    p := AnswerPosition(served, events, c);
    var cfg := Exec(served, START, events);
    EveryRunKeepsInv(Sequential(served, cfg.log), p);
    PerformAnswers(served, Sequential(served, cfg.log).StateAt(p), cfg.clients[c].call);
  }

  /** No two clients are ever handed the same reservation id, however their
      calls interleave and die, while at most 2^64 - 1 numbers are spent. */
  lemma {:induction false} DeliveredIdsDistinct(served: Served, events: seq<Event>, a: nat, b: nat)
    requires WellFormed(served)
    requires
      var cfg := Exec(served, START, events);
      && Sequential(served, cfg.log).Spent() <= U64_MAX
      && a != b && a in cfg.clients && b in cfg.clients
      && cfg.clients[a].Returned? && cfg.clients[a].outcome.Granted?
      && cfg.clients[b].Returned? && cfg.clients[b].outcome.Granted?
    ensures
      var cfg := Exec(served, START, events);
      cfg.clients[a].outcome.reservation.reservationId != cfg.clients[b].outcome.reservation.reservationId
  {
    hide Perform, Apply, Section, Exec, EffectOf;
    var cfg := Exec(served, START, events);
    var p := AnswerPosition(served, events, a);
    var q := AnswerPosition(served, events, b);
    AnswerEffect(served, cfg.log, a, cfg.clients[a], p);
    AnswerEffect(served, cfg.log, b, cfg.clients[b], q);
    WithinTheCounter(Sequential(served, cfg.log));
    GrantsDiffer(Sequential(served, cfg.log).Effects(), p, q);
  }

  lemma GrantsDiffer(effects: seq<Effect>, p: nat, q: nat)
    requires GrantIdsDistinct(effects)
    requires p < |effects| && q < |effects| && p != q && effects[p].Grant? && effects[q].Grant?
    ensures effects[p].reservation.reservationId != effects[q].reservation.reservationId
  {
  }

  /** No two clients ever succeed in releasing the same id, under the same bound. */
  lemma {:induction false} DeliveredReleasesDistinct(served: Served, events: seq<Event>, a: nat, b: nat)
    requires WellFormed(served)
    requires
      var cfg := Exec(served, START, events);
      && Sequential(served, cfg.log).Spent() <= U64_MAX
      && a != b && a in cfg.clients && b in cfg.clients
      && cfg.clients[a].Returned? && cfg.clients[a].outcome.Released?
      && cfg.clients[b].Returned? && cfg.clients[b].outcome.Released?
    ensures
      var cfg := Exec(served, START, events);
      && cfg.clients[a].call.Release? && cfg.clients[b].call.Release?
      && cfg.clients[a].call.reservationId != cfg.clients[b].call.reservationId
  {
    hide Perform, Apply, Section, Exec, EffectOf;
    var cfg := Exec(served, START, events);
    var p := AnswerPosition(served, events, a);
    var q := AnswerPosition(served, events, b);
    AnswerEffect(served, cfg.log, a, cfg.clients[a], p);
    AnswerEffect(served, cfg.log, b, cfg.clients[b], q);
    WithinTheCounter(Sequential(served, cfg.log));
    ReleasesDiffer(Sequential(served, cfg.log).Effects(), p, q);
  }

  lemma ReleasesDiffer(effects: seq<Effect>, p: nat, q: nat)
    requires NoSecondRelease(effects)
    requires p < |effects| && q < |effects| && p != q && effects[p].Free? && effects[q].Free?
    ensures effects[p].reservationId != effects[q].reservationId
  {
  }

  /** No two clients are answered completions with the same id, while at most
      2^64 - 1 completions are answered. */
  lemma {:induction false} DeliveredCompletionsDistinct(served: Served, events: seq<Event>, a: nat, b: nat)
    requires
      var cfg := Exec(served, START, events);
      && Sequential(served, cfg.log).Completions(|cfg.log|) <= U64_MAX
      && a != b && a in cfg.clients && b in cfg.clients
      && cfg.clients[a].Returned? && cfg.clients[a].outcome.Completed?
      && cfg.clients[b].Returned? && cfg.clients[b].outcome.Completed?
    ensures
      var cfg := Exec(served, START, events);
      cfg.clients[a].outcome.response.id != cfg.clients[b].outcome.response.id
  {
    hide Perform, Apply, Section, Exec, EffectOf;
    var cfg := Exec(served, START, events);
    var p := AnswerPosition(served, events, a);
    var q := AnswerPosition(served, events, b);
    AnswerEffect(served, cfg.log, a, cfg.clients[a], p);
    AnswerEffect(served, cfg.log, b, cfg.clients[b], q);
    CompletionsDiffer(Sequential(served, cfg.log), Min(p, q), Max(p, q));
  }

  lemma {:induction false} CompletionsDiffer(run: Run, p: nat, q: nat)
    requires p < q < |run.ops| && run.CompletedAt(p) && run.CompletedAt(q)
    requires run.Completions(|run.ops|) <= U64_MAX
    ensures run.CompletionIdAt(p) != run.CompletionIdAt(q)
  {
    hide Perform, Apply;
    CompletionsGrow(run, p + 1, q);
    CompletionsGrow(run, q + 1, |run.ops|);
    CompletionIdsIff(run, p, q);
  }

  /** The ledger of the shared state: whenever the lock is free and at most
      2^64 - 1 numbers were spent, reserved is granted minus released. */
  lemma {:induction false} SharedLedgerBalances(served: Served, events: seq<Event>)
    requires WellFormed(served)
    requires
      var cfg := Exec(served, START, events);
      cfg.holder == None && Sequential(served, cfg.log).Spent() <= U64_MAX
    ensures
      var cfg := Exec(served, START, events);
      LedgerBalances(cfg.shared, Sequential(served, cfg.log).Effects())
  {
    hide Perform, Apply, Section, EffectOf;
    StartSimulates(served);
    ExecSimulates(served, START, events);
    WithinTheCounter(Sequential(served, Exec(served, START, events).log));
  }

  /** Every inventory a client is ever answered, in any schedule, adds up row by
      row without clipping, and its rows account for exactly the reservations at
      one moment of the sequential run, the client's own. */
  lemma {:induction false} DeliveredInventoryAgrees(served: Served, events: seq<Event>, c: nat) returns (p: nat)
    requires WellFormed(served)
    requires
      var cfg := Exec(served, START, events);
      c in cfg.clients && cfg.clients[c].Returned? && cfg.clients[c].outcome.Inventory?
    ensures
      var cfg := Exec(served, START, events);
      var rows := cfg.clients[c].outcome.rows;
      && AnsweredAt(served, cfg.log, c, cfg.clients[c], p)
      && |rows| == |served.models|
      && (forall i :: 0 <= i < |rows| ==> rows[i].reservedSlots + rows[i].availableSlots == rows[i].totalSlots)
      && SumReserved(rows) == TotalSlots(Reservations(Sequential(served, cfg.log).StateAt(p)))
  {
    p := AnswerPosition(served, events, c);
    var cfg := Exec(served, START, events);
    var run := Sequential(served, cfg.log);
    EveryRunKeepsInv(run, p);
    InventoryAgrees(served, run.StateAt(p));
    InventoryAnswer(served, run.StateAt(p), cfg.log[p].call);
  }

  lemma {:induction false} InventoryAnswer(served: Served, state: State, call: Call)
    requires Perform(served, state, call).1.Inventory?
    ensures Perform(served, state, call).1.rows == LocalModels(served, state)
  {
  }

  /** Every reservation list a client is ever answered lists, at one moment of
      the sequential run, in grant order exactly when the live numbers sort as
      strings, so always when at most 999,999 numbers were spent before it. */
  lemma {:induction false} DeliveredListInGrantOrder(served: Served, events: seq<Event>, c: nat) returns (p: nat)
    requires WellFormed(served)
    requires
      var cfg := Exec(served, START, events);
      c in cfg.clients && cfg.clients[c].Returned? && cfg.clients[c].outcome.Listed?
    ensures
      var cfg := Exec(served, START, events);
      && AnsweredAt(served, cfg.log, c, cfg.clients[c], p)
      && var (listed, earlier) :=
           (cfg.clients[c].outcome.reservations, Sequential(served, cfg.log).Effects()[..p]);
         && (listed == LiveInGrantOrder(earlier) <==> NumbersSortAsStrings(LiveInGrantOrder(earlier)))
         && (Bumps(earlier) <= 999_999 ==> listed == LiveInGrantOrder(earlier))
  {
    hide Perform, Apply, Section, Exec, EffectOf;
    p := AnswerPosition(served, events, c);
    var cfg := Exec(served, START, events);
    var run := Sequential(served, cfg.log);
    ListAnswer(served, run.StateAt(p), cfg.log[p].call);
    RunIsLegal(run);
    Histories.GrantOrderIff(served, run.History(), p);
    if Bumps(run.Effects()[..p]) <= 999_999 {
      ListIsGrantOrder(served, run.History(), p);
    }
  }

  lemma {:induction false} ListAnswer(served: Served, state: State, call: Call)
    requires Perform(served, state, call).1.Listed?
    ensures Perform(served, state, call).1.reservations == Reservations(state)
  {
  }
}
