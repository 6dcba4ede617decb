/** Whole runs of the allocator: what holds after every sequence of calls,
    including calls whose client died inside the critical section. */
module Runs {
  import opened Wrappers
  import opened MachineInts
  import opened OrderedMap
  import opened Runtime
  import opened RuntimeLaws
  import opened Histories
  import Decimal

  /** One call on the adapter; `now` is the clock reading it will see. */
  datatype Call =
    | Create(request: CreateReservationRequest, now: u64)
    | Release(reservationId: string)
    | ListReservations
    | ListModels
    | ListCards
    | Chat(chat: ChatRequest, now: u64)

  datatype Outcome =
    | Granted(reservation: ModelReservation)
    | Released
    | Listed(reservations: seq<ModelReservation>)
    | Inventory(rows: seq<LocalModelInventory>)
    | Cards(ids: seq<string>)
    | Completed(response: ChatResponse)
    | Failed(error: ComputeError)

  function Perform(served: Served, state: State, call: Call): (State, Outcome) {
    match call
    case Create(request, now) =>
      var (after, result) := CreateReservation(served, state, request, now);
      (after, if result.Success? then Granted(result.value) else Failed(result.error))
    case Release(id) =>
      var (after, result) := ReleaseReservation(state, id);
      (after, if result.Success? then Released else Failed(result.error))
    case ListReservations => (state, Listed(Reservations(state)))
    case ListModels => (state, Inventory(LocalModels(served, state)))
    case ListCards => (state, Cards(OpenAiModels(served, state)))
    case Chat(chat, now) =>
      var (after, result) := ChatCompletion(served, state, chat, now);
      (after, if result.Success? then Completed(result.value) else Failed(result.error))
  }

  /** What a caller is promised, whatever the call, from an invariant state. */
  ghost predicate Answers(served: Served, state: State, call: Call, outcome: Outcome) {
    match call
    case Create(request, now) =>
      (outcome.Granted? || outcome.Failed?) && CreateAnswer(served, state, request, now, CreateResult(outcome))
    case Release(id) =>
      outcome == if Get(state.reservations, id).Some? then Released else Failed(ReservationNotFound(id))
    case ListReservations =>
      outcome.Listed? && ListsExactly(state, outcome.reservations)
    case ListModels =>
      && outcome.Inventory? && InventoryExact(served, state, outcome.rows)
      && SumReserved(outcome.rows) == TotalSlots(Reservations(state))
    case ListCards =>
      outcome.Cards? && CardsExact(served, outcome.ids)
    case Chat(chat, now) =>
      (outcome.Completed? || outcome.Failed?) && ChatAnswer(served, state, chat, now, ChatResult(outcome))
  }

  function CreateResult(outcome: Outcome): Result<ModelReservation, ComputeError>
    requires outcome.Granted? || outcome.Failed?
  {
    if outcome.Granted? then Success(outcome.reservation) else Failure(outcome.error)
  }

  function ChatResult(outcome: Outcome): Result<ChatResponse, ComputeError>
    requires outcome.Completed? || outcome.Failed?
  {
    if outcome.Completed? then Success(outcome.response) else Failure(outcome.error)
  }

  /** Every call keeps the promise. */
  lemma {:induction false} PerformAnswers(served: Served, state: State, call: Call)
    requires WellFormed(served) && Inv(served, state)
    ensures Answers(served, state, call, Perform(served, state, call).1)
  {
    hide CreateAnswer, ChatAnswer, ListsExactly, InventoryExact, CardsExact, WellFormed, Inv;
    hide CreateReservation, ChatCompletion, LocalModels, OpenAiModels;
    match call
    case Create(request, now) =>
      CreateExact(served, state, request, now);
      assert CreateResult(Perform(served, state, call).1) == CreateReservation(served, state, request, now).1;
    case Release(id) =>
    case ListReservations => ListExact(served, state);
    case ListModels => InventoryAgrees(served, state);
    case ListCards => CardsAreServed(served, state);
    case Chat(chat, now) =>
      ChatExact(served, state, chat, now);
      assert ChatResult(Perform(served, state, call).1) == ChatCompletion(served, state, chat, now).1;
  }

  /** What one critical section leaves behind: a whole call, or what remains of
      a create whose client died after the counter bump, or nothing. */
  datatype Op = Committed(call: Call) | BurnedId | NoEffect

  function Apply(served: Served, state: State, op: Op): State {
    match op
    case Committed(call) => Perform(served, state, call).0
    case BurnedId => BumpReservationId(state)
    case NoEffect => state
  }

  function EffectOf(served: Served, state: State, op: Op): Effect {
    match op
    case BurnedId => Burn
    case NoEffect => Quiet
    case Committed(call) =>
      match Perform(served, state, call).1
      case Granted(reservation) => Grant(reservation)
      case Released => if call.Release? then Free(call.reservationId) else Quiet
      case _ => Quiet
  }

  datatype Run = Run(served: Served, ops: seq<Op>) {

    /** The state after the first n operations. */
    function StateAt(n: nat): State
      requires n <= |ops|
    {
      if n == 0 then INITIAL_STATE else Apply(served, StateAt(n - 1), ops[n - 1])
    }

    function Final(): State {
      StateAt(|ops|)
    }

    function Effects(): seq<Effect> {
      seq(|ops|, i requires 0 <= i < |ops| => EffectOf(served, StateAt(i), ops[i]))
    }

    function History(): History {
      Histories.History(seq(|ops| + 1, i requires 0 <= i <= |ops| => StateAt(i)), Effects())
    }

    /** How many numbers the run spent. */
    function Spent(): nat {
      Bumps(Effects())
    }

    /** Did the i-th operation answer a chat completion? */
    predicate CompletedAt(i: nat)
      requires i < |ops|
    {
      ops[i].Committed? && Perform(served, StateAt(i), ops[i].call).1.Completed?
    }

    function CompletionIdAt(i: nat): string
      requires i < |ops| && CompletedAt(i)
    {
      Perform(served, StateAt(i), ops[i].call).1.response.id
    }

    /** How many completions the first n operations answered. */
    function Completions(n: nat): nat
      requires n <= |ops|
    {
      if n == 0 then 0 else Completions(n - 1) + if CompletedAt(n - 1) then 1 else 0
    }
  }

  lemma {:induction false} PerformKeepsInv(served: Served, state: State, call: Call)
    requires WellFormed(served) && Inv(served, state)
    ensures Inv(served, Perform(served, state, call).0)
  {
    match call
    case Create(request, now) => CreateKeepsInv(served, state, request, now);
    case Release(id) => ReleaseKeepsInv(served, state, id);
    case Chat(chat, now) => ChatKeepsInv(served, state, chat, now);
    case _ =>
  }

  /** The allocator invariant, and with it no overbooking, in every reachable
      state: no bound on the run, crashed clients and a saturated counter included. */
  lemma {:induction false} EveryRunKeepsInv(run: Run, n: nat)
    requires WellFormed(run.served) && n <= |run.ops|
    ensures Inv(run.served, run.StateAt(n))
  {
    if n == 0 {
      InitialInv(run.served);
    } else {
      EveryRunKeepsInv(run, n - 1);
      match run.ops[n - 1]
      case Committed(call) => PerformKeepsInv(run.served, run.StateAt(n - 1), call);
      case BurnedId => BumpKeepsInv(run.served, run.StateAt(n - 1));
      case NoEffect =>
    }
  }

  lemma CreateMatchesEffect(served: Served, state: State, request: CreateReservationRequest, now: u64)
    requires WellFormed(served)
    ensures StepRel(state, EffectOf(served, state, Committed(Create(request, now))),
                    Perform(served, state, Create(request, now)).0)
  {
  }

  lemma ApplyMatchesEffect(served: Served, state: State, op: Op)
    requires WellFormed(served)
    ensures StepRel(state, EffectOf(served, state, op), Apply(served, state, op))
  {
    if op.Committed? && op.call.Create? {
      CreateMatchesEffect(served, state, op.call.request, op.call.now);
    }
  }

  lemma HistoryStep(run: Run, i: nat)
    requires WellFormed(run.served) && i < |run.ops|
    ensures run.History().StepAt(i)
  {
    ApplyMatchesEffect(run.served, run.StateAt(i), run.ops[i]);
    assert run.StateAt(i + 1) == Apply(run.served, run.StateAt(i), run.ops[i]);
  }

  lemma HistoryInv(run: Run, i: nat)
    requires WellFormed(run.served) && i <= |run.ops|
    ensures run.History().InvAt(run.served, i)
  {
    EveryRunKeepsInv(run, i);
  }

  /** Every run is a legal history. */
  lemma RunIsLegal(run: Run)
    requires WellFormed(run.served)
    ensures run.History().Legal(run.served)
  {
    var h := run.History();
    assert h.states[0] == INITIAL_STATE;
    forall i | 0 <= i <= |h.effects|
      ensures h.InvAt(run.served, i)
    {
      HistoryInv(run, i);
    }
    forall i | 0 <= i < |h.effects|
      ensures h.StepAt(i)
    {
      HistoryStep(run, i);
    }
  }

  /** Up to 2^64 - 1 numbers: reserved is granted minus released for every
      model, no id is granted twice, and no id is released twice. */
  lemma {:induction false} WithinTheCounter(run: Run)
    requires WellFormed(run.served) && run.Spent() <= U64_MAX
    ensures LedgerBalances(run.Final(), run.Effects())
    ensures GrantIdsDistinct(run.Effects())
    ensures NoSecondRelease(run.Effects())
  {
    RunIsLegal(run);
    Conservation(run.served, run.History());
    DistinctGrants(run.served, run.History());
    ReleasedOnce(run.served, run.History());
  }

  /** A successful release of any id but the clamped one, and within the counter
      of any id, reverses exactly one grant: one earlier grant returned its id,
      no other grant ever does, and the entry removed is that grant's record; so
      a stale id cannot free someone else's slots, and only the grant's own
      model moves. */
  lemma {:induction false} ReleaseReversesOneGrant(run: Run, j: nat) returns (g: nat)
    requires WellFormed(run.served) && j < |run.ops| && run.Effects()[j].Free?
    requires run.Effects()[j].reservationId != ReservationId(U64_MAX) || run.Spent() <= U64_MAX
    ensures g < j && run.Effects()[g].Grant?
    ensures
      var grant := run.Effects()[g].reservation;
      && grant.reservationId == run.Effects()[j].reservationId
      && Get(run.StateAt(j).reservations, grant.reservationId) == Some(grant)
      && (forall i :: 0 <= i < |run.ops| && i != g && run.Effects()[i].Grant? ==>
            run.Effects()[i].reservation.reservationId != grant.reservationId)
      && (forall model :: LiveSlots(run.StateAt(j + 1), model)
                          == LiveSlots(run.StateAt(j), model) - Share(grant, model))
  {
    hide Perform, Apply, EffectOf, ReservationId, Bumps, LiveSlots, Share, Get, WellFormed;
    RunIsLegal(run);
    g := ReversesOneGrant(run.served, run.History(), j);
  }

  /** With no bound at all, the ledger is short by exactly what saturated
      grants overwrote. */
  lemma {:induction false} LedgerWithLosses(run: Run, model: string)
    requires WellFormed(run.served)
    ensures LiveSlots(run.Final(), model) + ReleasedSlots(run.Effects(), model)
            + run.History().OverwrittenSlots(|run.ops|, model)
            == GrantedSlots(run.Effects(), model)
  {
    RunIsLegal(run);
    Ledger(run.served, run.History(), |run.ops|, model);
    assert run.Effects()[..|run.ops|] == run.Effects();
  }

  /** Up to 999,999 numbers, `reservations()` lists in grant order. */
  lemma {:induction false} ListedInGrantOrder(run: Run)
    requires WellFormed(run.served) && run.Spent() <= 999_999
    ensures Reservations(run.Final()) == LiveInGrantOrder(run.Effects())
  {
    RunIsLegal(run);
    assert run.Effects()[..|run.ops|] == run.Effects();
    ListIsGrantOrder(run.served, run.History(), |run.ops|);
  }

  // -------------------------------------------- each guarantee, run by run

  /** Exactly the runs whose grants all have different ids: every grant but the
      last was made while the counter was more than one step from saturation. */
  lemma {:induction false} DistinctIdsIff(run: Run)
    requires WellFormed(run.served)
    ensures GrantIdsDistinct(run.Effects())
            <==> forall i, j :: 0 <= i < j < |run.ops| && run.Effects()[i].Grant? && run.Effects()[j].Grant? ==>
                   !run.History().CounterSpent(i)
  {
    hide Perform, Apply, EffectOf;
    RunIsLegal(run);
    DistinctIff(run.served, run.History());
  }

  /** Exactly the runs in which no id is released twice. */
  lemma {:induction false} NoSecondReleaseIff(run: Run)
    requires WellFormed(run.served)
    ensures NoSecondRelease(run.Effects()) <==> ClampedIdReleasedOnce(run.Effects())
  {
    hide Perform, Apply, EffectOf;
    RunIsLegal(run);
    ReleasedOnceIff(run.served, run.History());
  }

  /** Exactly the runs whose ledger balances. */
  lemma {:induction false} LedgerBalancesIff(run: Run)
    requires WellFormed(run.served)
    ensures LedgerBalances(run.Final(), run.Effects())
            <==> forall i :: 0 <= i < |run.ops| && run.Effects()[i].Grant? ==> !run.History().ClampedIdLive(i)
  {
    hide Perform, Apply, EffectOf;
    RunIsLegal(run);
    LedgerIff(run.served, run.History());
  }

  /** Exactly the runs after which `reservations()` lists in grant order. */
  lemma {:induction false} GrantOrderIff(run: Run)
    requires WellFormed(run.served)
    ensures Reservations(run.Final()) == LiveInGrantOrder(run.Effects())
            <==> NumbersSortAsStrings(LiveInGrantOrder(run.Effects()))
  {
    hide Perform, Apply, EffectOf;
    RunIsLegal(run);
    assert run.Effects()[..|run.ops|] == run.Effects();
    Histories.GrantOrderIff(run.served, run.History(), |run.ops|);
  }

  /** A granted create that overwrites nothing moves only its own model. */
  lemma {:induction false} CreateMovesOwnModel(run: Run, i: nat, model: string)
    requires WellFormed(run.served) && i < |run.ops| && run.Effects()[i].Grant?
    requires !run.History().ClampedIdLive(i)
    ensures LiveSlots(run.StateAt(i + 1), model)
            == LiveSlots(run.StateAt(i), model) + Share(run.Effects()[i].reservation, model)
  {
    hide Perform, Apply, EffectOf;
    RunIsLegal(run);
    GrantMovesOwnModel(run.served, run.History(), i, model);
  }

  // ------------------------------------------------------------ completion ids

  lemma CompletionStep(served: Served, state: State, call: Call)
    ensures
      var (after, outcome) := Perform(served, state, call);
      if outcome.Completed? then
        && after.nextCompletionId == Min(state.nextCompletionId + 1, U64_MAX)
        && outcome.response.id == CompletionId(after.nextCompletionId)
      else after.nextCompletionId == state.nextCompletionId
  {
    hide CompletionId, CompletionText, UsageOf, Put, Remove, FoldSlots;
  }

  lemma {:induction false} CounterIsCompletions(run: Run, n: nat)
    requires n <= |run.ops|
    ensures run.StateAt(n).nextCompletionId == Min(run.Completions(n), U64_MAX)
  {
    hide Perform;
    if n > 0 {
      CounterIsCompletions(run, n - 1);
      if run.ops[n - 1].Committed? {
        CompletionStep(run.served, run.StateAt(n - 1), run.ops[n - 1].call);
      }
    }
  }

  lemma CompletionIdIs(run: Run, i: nat)
    requires i < |run.ops| && run.CompletedAt(i)
    ensures run.CompletionIdAt(i) == CompletionId(Min(run.Completions(i) + 1, U64_MAX))
  {
    hide Perform;
    CounterIsCompletions(run, i);
    CompletionStep(run.served, run.StateAt(i), run.ops[i].call);
  }

  lemma {:induction false} CompletionsGrow(run: Run, i: nat, j: nat)
    requires i <= j <= |run.ops|
    ensures run.Completions(i) <= run.Completions(j)
  {
    hide Perform, Apply;
    if i < j {
      CompletionsGrow(run, i, j - 1);
    }
  }

  lemma ClampedCompletionIds(a: nat, b: nat)
    requires a < b
    ensures CompletionId(Min(a, U64_MAX)) != CompletionId(Min(b, U64_MAX)) <==> a < U64_MAX
  {
    var x: nat, y: nat := Min(a, U64_MAX), Min(b, U64_MAX);
    assert CompletionId(x)[9..] == Decimal.Padded(x) && CompletionId(y)[9..] == Decimal.Padded(y);
    if CompletionId(x) == CompletionId(y) {
      Decimal.PaddedInjective(x, y);
    }
  }

  /** Two answered completions have different ids exactly when fewer than
      2^64 - 2 completions came before the first of them. */
  lemma {:induction false} CompletionIdsIff(run: Run, i: nat, j: nat)
    requires i < j < |run.ops| && run.CompletedAt(i) && run.CompletedAt(j)
    ensures run.CompletionIdAt(i) != run.CompletionIdAt(j) <==> run.Completions(i) + 1 < U64_MAX
  {
    hide Perform, Apply, CompletionId;
    CompletionIdIs(run, i);
    CompletionIdIs(run, j);
    CompletionsGrow(run, i + 1, j);
    ClampedCompletionIds(run.Completions(i) + 1, run.Completions(j) + 1);
  }

  // ------------------------------------------------------------------- prefixes

  /** A run's states do not depend on what happens later. */
  lemma {:induction false} PrefixState(served: Served, ops: seq<Op>, more: seq<Op>, n: nat)
    requires n <= |ops|
    ensures Run(served, ops + more).StateAt(n) == Run(served, ops).StateAt(n)
  {
    if n > 0 {
      PrefixState(served, ops, more, n - 1);
    }
  }

  /** One more operation adds one state. */
  lemma ExtendState(served: Served, ops: seq<Op>, op: Op)
    ensures Run(served, ops + [op]).StateAt(|ops|) == Run(served, ops).StateAt(|ops|)
    ensures Run(served, ops + [op]).StateAt(|ops| + 1) == Apply(served, Run(served, ops).StateAt(|ops|), op)
  {
    PrefixState(served, ops, [op], |ops|);
    assert (ops + [op])[|ops|] == op;
  }
}
