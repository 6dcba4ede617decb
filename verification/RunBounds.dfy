/** The bounds on whole runs are exact: one number more and each guarantee has
    a run, made of ordinary calls only, that breaks it. */
module RunBounds {
  import opened Wrappers
  import opened MachineInts
  import opened Lexicographic
  import opened OrderedMap
  import opened Runtime
  import opened RuntimeLaws
  import opened Histories
  import opened Runs
  import Decimal

  const SOLO := ModelConfig("m", "f", 1, 1, 2, [])
  const SERVED := Served(Skeleton, "", [Entry("m", SOLO)])
  const REQUEST := CreateReservationRequest("m", "c", 1)
  const CREATE := Committed(Create(REQUEST, 0))

  function ReleaseOf(n: nat): Op {
    Committed(Release(ReservationId(n)))
  }

  function Ticket(n: nat): ModelReservation {
    ModelReservation(ReservationId(n), "m", "c", 1, 0)
  }

  /** n times: create a reservation and release it. */
  function Churn(n: nat): seq<Op> {
    if n == 0 then [] else Churn(n - 1) + [CREATE] + [ReleaseOf(n)]
  }

  lemma {:induction false} ExtendEffectAt(served: Served, ops: seq<Op>, op: Op, i: nat)
    requires i < |ops|
    ensures Run(served, ops + [op]).Effects()[i] == Run(served, ops).Effects()[i]
  {
    PrefixState(served, ops, [op], i);
  }

  lemma {:induction false} ExtendEffectLast(served: Served, ops: seq<Op>, op: Op, effect: Effect)
    requires EffectOf(served, Run(served, ops).StateAt(|ops|), op) == effect
    ensures Run(served, ops + [op]).Effects()[|ops|] == effect
  {
    ExtendState(served, ops, op);
  }

  lemma Snoc<T>(longer: seq<T>, shorter: seq<T>, last: T)
    requires |longer| == |shorter| + 1 && longer[|shorter|] == last
    requires forall i :: 0 <= i < |shorter| ==> longer[i] == shorter[i]
    ensures longer == shorter + [last]
  {
  }

  lemma {:induction false} ExtendEffects(ops: seq<Op>, op: Op, effects: seq<Effect>, effect: Effect)
    requires Run(SERVED, ops).Effects() == effects && Run(SERVED, ops + [op]).Effects()[|ops|] == effect
    ensures Run(SERVED, ops + [op]).Effects() == effects + [effect]
  {
    hide Perform, Apply, EffectOf;
    var longer := Run(SERVED, ops + [op]).Effects();
    forall i | 0 <= i < |effects|
      ensures longer[i] == effects[i]
    {
      ExtendEffectAt(SERVED, ops, op, i);
    }
    Snoc(longer, effects, effect);
  }

  lemma BumpsSnoc(effects: seq<Effect>, last: Effect)
    ensures Bumps(effects + [last]) == Bumps(effects) + if last.Grant? || last.Burn? then 1 else 0
  {
  }

  /** The witness serves a configuration of one model with two slots. */
  lemma SoloIsWellFormed()
    ensures SERVED.models == BuildModels([SOLO]) && WellFormed(SERVED)
  {
  }

  lemma SoloIsValid()
    ensures ValidateCreate(SERVED, REQUEST) == Success(SOLO)
  {
  }

  lemma SoloLocked(state: State)
    requires FoldSlots(Values(state.reservations), "m", 0) <= 1
    ensures
      var n: nat := Min(state.nextReservationId + 1, U64_MAX);
      CreateLocked(state, SOLO, REQUEST, 0)
      == (State(n, state.nextCompletionId, Put(state.reservations, ReservationId(n), Ticket(n))),
          Success(Ticket(n)))
  {
  }

  /** While at most one slot is taken, a create is granted the next number. */
  lemma SoloGrant(state: State)
    requires FoldSlots(Values(state.reservations), "m", 0) <= 1
    ensures
      var n: nat := Min(state.nextReservationId + 1, U64_MAX);
      && EffectOf(SERVED, state, CREATE) == Grant(Ticket(n))
      && Apply(SERVED, state, CREATE)
         == State(n, state.nextCompletionId, Put(state.reservations, ReservationId(n), Ticket(n)))
  {
    SoloIsValid();
    SoloLocked(state);
    assert CreateReservation(SERVED, state, REQUEST, 0) == CreateLocked(state, SOLO, REQUEST, 0);
  }

  lemma SoloRelease(state: State, n: nat)
    requires state.reservations == [Entry(ReservationId(n), Ticket(n))]
    ensures EffectOf(SERVED, state, ReleaseOf(n)) == Free(ReservationId(n))
    ensures Apply(SERVED, state, ReleaseOf(n)) == State(state.nextReservationId, state.nextCompletionId, [])
  {
  }

  lemma OneTaken(n: nat)
    ensures FoldSlots(Values([Entry(ReservationId(n), Ticket(n))]), "m", 0) == 1
  {
  }

  /** Where a sequence of operations leads and what it did on the way. */
  ghost predicate Reaches(ops: seq<Op>, state: State, effects: seq<Effect>) {
    var run := Run(SERVED, ops);
    run.Final() == state && run.Effects() == effects
  }

  lemma {:induction false} ThenCreate(ops: seq<Op>, state: State, effects: seq<Effect>, n: nat)
    requires Reaches(ops, state, effects)
    requires FoldSlots(Values(state.reservations), "m", 0) <= 1
    requires n == Min(state.nextReservationId + 1, U64_MAX)
    ensures Reaches(ops + [CREATE],
                    State(n, state.nextCompletionId, Put(state.reservations, ReservationId(n), Ticket(n))),
                    effects + [Grant(Ticket(n))])
    ensures Bumps(effects + [Grant(Ticket(n))]) == Bumps(effects) + 1
  {
    hide Perform, Apply, EffectOf;
    ExtendState(SERVED, ops, CREATE);
    SoloGrant(state);
    ExtendEffectLast(SERVED, ops, CREATE, Grant(Ticket(n)));
    ExtendEffects(ops, CREATE, effects, Grant(Ticket(n)));
    BumpsSnoc(effects, Grant(Ticket(n)));
  }

  lemma {:induction false} ThenRelease(ops: seq<Op>, state: State, effects: seq<Effect>, n: nat)
    requires Reaches(ops, state, effects)
    requires state.reservations == [Entry(ReservationId(n), Ticket(n))]
    ensures Reaches(ops + [ReleaseOf(n)],
                    State(state.nextReservationId, state.nextCompletionId, []),
                    effects + [Free(ReservationId(n))])
    ensures Bumps(effects + [Free(ReservationId(n))]) == Bumps(effects)
  {
    hide Perform, Apply, EffectOf;
    ExtendState(SERVED, ops, ReleaseOf(n));
    SoloRelease(state, n);
    ExtendEffectLast(SERVED, ops, ReleaseOf(n), Free(ReservationId(n)));
    ExtendEffects(ops, ReleaseOf(n), effects, Free(ReservationId(n)));
    BumpsSnoc(effects, Free(ReservationId(n)));
  }

  lemma {:induction false} ChurnEnds(n: nat) returns (effects: seq<Effect>)
    requires n <= U64_MAX
    ensures Reaches(Churn(n), State(n, 0, []), effects)
    ensures |effects| == |Churn(n)| == 2 * n && Bumps(effects) == n
    ensures n > 0 ==> effects[2 * n - 1] == Free(ReservationId(n))
  {
    hide Perform, Apply, EffectOf;
    if n == 0 {
      effects := [];
    } else {
      var earlier := ChurnEnds(n - 1);
      ThenCreate(Churn(n - 1), State(n - 1, 0, []), earlier, n);
      ThenRelease(Churn(n - 1) + [CREATE], State(n, 0, [Entry(ReservationId(n), Ticket(n))]),
                  earlier + [Grant(Ticket(n))], n);
      effects := earlier + [Grant(Ticket(n))] + [Free(ReservationId(n))];
    }
  }

  /** After n rounds, two creates, the second of which may repeat the clamp. */
  lemma {:induction false} TwoMore(n: nat, last: nat) returns (effects: seq<Effect>)
    requires n < U64_MAX && last == Min(n + 2, U64_MAX)
    ensures |effects| == 2 * n && Bumps(effects + [Grant(Ticket(n + 1))] + [Grant(Ticket(last))]) == n + 2
    ensures Reaches(Churn(n), State(n, 0, []), effects)
    ensures Reaches(Churn(n) + [CREATE], State(n + 1, 0, [Entry(ReservationId(n + 1), Ticket(n + 1))]),
                    effects + [Grant(Ticket(n + 1))])
    ensures Reaches(Churn(n) + [CREATE] + [CREATE],
                    State(last, 0,
                          Put([Entry(ReservationId(n + 1), Ticket(n + 1))], ReservationId(last), Ticket(last))),
                    effects + [Grant(Ticket(n + 1))] + [Grant(Ticket(last))])
  {
    hide Perform, Apply, EffectOf;
    effects := ChurnEnds(n);
    ThenCreate(Churn(n), State(n, 0, []), effects, n + 1);
    OneTaken(n + 1);
    ThenCreate(Churn(n) + [CREATE], State(n + 1, 0, [Entry(ReservationId(n + 1), Ticket(n + 1))]),
               effects + [Grant(Ticket(n + 1))], last);
  }

  /** One number past the counter: the same id is granted twice in a row. */
  lemma {:induction false} SaturatedGrant(n: nat) returns (run: Run)
    requires n == U64_MAX - 1
    ensures run.served == SERVED && run.Spent() == U64_MAX + 1
    ensures !GrantIdsDistinct(run.Effects())
  {
    hide Perform, Apply, EffectOf;
    run := Run(SERVED, Churn(n) + [CREATE] + [CREATE]);
    var earlier := TwoMore(n, n + 1);
    var effects := run.Effects();
    var (i, j) := (2 * n, 2 * n + 1);
    assert effects[i] == Grant(Ticket(n + 1)) && effects[j] == Grant(Ticket(n + 1));
    assert effects[i].reservation.reservationId == effects[j].reservation.reservationId;
  }

  lemma OverwritesOne(h: History, n: nat, r: ModelReservation)
    requires n < |h.effects| < |h.states|
    requires h.states[n].reservations == [Entry(r.reservationId, r)] && h.effects[n] == Grant(r)
    requires r.requestedSlots == 1
    ensures h.OverwrittenSlots(n + 1, r.model) >= 1
  {
  }

  /** The same run's ledger has lost the slot of the overwritten entry. */
  lemma {:induction false} SaturatedLedger(n: nat) returns (run: Run)
    requires n == U64_MAX - 1
    ensures run.served == SERVED && run.Spent() == U64_MAX + 1
    ensures !LedgerBalances(run.Final(), run.Effects())
  {
    hide Perform, Apply, EffectOf;
    run := Run(SERVED, Churn(n) + [CREATE] + [CREATE]);
    var earlier := TwoMore(n, n + 1);
    SoloIsWellFormed();
    PrefixState(SERVED, Churn(n) + [CREATE], [CREATE], 2 * n + 1);
    OverwritesOne(run.History(), 2 * n + 1, Ticket(n + 1));
    LedgerWithLosses(run, "m");
    assert LiveSlots(run.Final(), "m") + ReleasedSlots(run.Effects(), "m") != GrantedSlots(run.Effects(), "m");
  }

  /** One number past the counter: a released id is granted and released again. */
  lemma {:induction false} SaturatedRelease(n: nat) returns (run: Run)
    requires n == U64_MAX
    ensures run.served == SERVED && run.Spent() == U64_MAX + 1
    ensures !NoSecondRelease(run.Effects())
  {
    hide Perform, Apply, EffectOf;
    var earlier := ChurnEnds(n);
    ThenCreate(Churn(n), State(n, 0, []), earlier, n);
    ThenRelease(Churn(n) + [CREATE], State(n, 0, [Entry(ReservationId(n), Ticket(n))]),
                earlier + [Grant(Ticket(n))], n);
    run := Run(SERVED, Churn(n) + [CREATE] + [ReleaseOf(n)]);
    var effects := run.Effects();
    var (i, j) := (2 * n - 1, 2 * n + 1);
    assert effects[i] == Free(ReservationId(n)) && effects[j] == Free(ReservationId(n));
    assert effects[i].reservationId == effects[j].reservationId;
  }

  /** The millionth number sorts before the one granted just before it. */
  lemma {:induction false} SevenDigits(n: nat) returns (run: Run)
    requires n == 999_998
    ensures run.served == SERVED && run.Spent() == 1_000_000
    ensures Reservations(run.Final()) != LiveInGrantOrder(run.Effects())
  {
    hide Perform, Apply, EffectOf;
    run := Run(SERVED, Churn(n) + [CREATE] + [CREATE]);
    var earlier := TwoMore(n, n + 2);
    MillionFirst(n + 1);
    NothingLive(n, earlier);
    TwoAppended(earlier, Ticket(n + 1), Ticket(n + 2));
    assert Reservations(run.Final())[0] != LiveInGrantOrder(run.Effects())[0];
  }

  lemma NothingLive(n: u64, effects: seq<Effect>)
    requires Reaches(Churn(n), State(n, 0, []), effects) && Bumps(effects) <= 999_999
    ensures LiveInGrantOrder(effects) == []
  {
    SoloIsWellFormed();
    ListedInGrantOrder(Run(SERVED, Churn(n)));
  }

  lemma MillionFirst(n: nat)
    requires n == 999_999
    ensures Ticket(n) != Ticket(n + 1)
    ensures Values(Put([Entry(ReservationId(n), Ticket(n))], ReservationId(n + 1), Ticket(n + 1)))
            == [Ticket(n + 1), Ticket(n)]
  {
    Decimal.MillionSortsFirst();
    CommonPrefix("resv-", Decimal.Padded(n + 1), Decimal.Padded(n));
    Asymmetric(ReservationId(n + 1), ReservationId(n));
    var listed := Put([Entry(ReservationId(n), Ticket(n))], ReservationId(n + 1), Ticket(n + 1));
    assert listed == [Entry(ReservationId(n + 1), Ticket(n + 1)), Entry(ReservationId(n), Ticket(n))];
  }

  lemma TwoAppended(effects: seq<Effect>, r: ModelReservation, s: ModelReservation)
    ensures LiveInGrantOrder(effects + [Grant(r)] + [Grant(s)]) == LiveInGrantOrder(effects) + [r, s]
  {
  }

  /** Distinct ids in every run that spends at most `bound` numbers: exactly up
      to 2^64 - 1. */
  lemma {:induction false} DistinctIdsBound(bound: nat)
    ensures (forall run: Run :: WellFormed(run.served) && run.Spent() <= bound ==> GrantIdsDistinct(run.Effects()))
            <==> bound <= U64_MAX
  {
    if bound <= U64_MAX {
      forall run: Run | WellFormed(run.served) && run.Spent() <= bound
        ensures GrantIdsDistinct(run.Effects())
      {
        WithinTheCounter(run);
      }
    } else {
      SoloIsWellFormed();
      var run := SaturatedGrant(U64_MAX - 1);
    }
  }

  /** The same for released ids staying released. */
  lemma {:induction false} StaleIdBound(bound: nat)
    ensures (forall run: Run :: WellFormed(run.served) && run.Spent() <= bound ==> NoSecondRelease(run.Effects()))
            <==> bound <= U64_MAX
  {
    if bound <= U64_MAX {
      forall run: Run | WellFormed(run.served) && run.Spent() <= bound
        ensures NoSecondRelease(run.Effects())
      {
        WithinTheCounter(run);
      }
    } else {
      SoloIsWellFormed();
      var run := SaturatedRelease(U64_MAX);
    }
  }

  /** The same for the ledger. */
  lemma {:induction false} LedgerBound(bound: nat)
    ensures (forall run: Run :: WellFormed(run.served) && run.Spent() <= bound ==>
              LedgerBalances(run.Final(), run.Effects()))
            <==> bound <= U64_MAX
  {
    if bound <= U64_MAX {
      forall run: Run | WellFormed(run.served) && run.Spent() <= bound
        ensures LedgerBalances(run.Final(), run.Effects())
      {
        WithinTheCounter(run);
      }
    } else {
      SoloIsWellFormed();
      var run := SaturatedLedger(U64_MAX - 1);
    }
  }

  /** Listing in grant order: exactly up to 999,999 numbers. */
  lemma {:induction false} GrantOrderBound(bound: nat)
    ensures (forall run: Run :: WellFormed(run.served) && run.Spent() <= bound ==>
              Reservations(run.Final()) == LiveInGrantOrder(run.Effects()))
            <==> bound <= 999_999
  {
    if bound <= 999_999 {
      forall run: Run | WellFormed(run.served) && run.Spent() <= bound
        ensures Reservations(run.Final()) == LiveInGrantOrder(run.Effects())
      {
        ListedInGrantOrder(run);
      }
    } else {
      SoloIsWellFormed();
      var run := SevenDigits(999_998);
    }
  }
}
