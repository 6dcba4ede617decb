/** The allocator's invariant, the exact meaning of its operations, and the
    laws of its inventory, its model table and its usage accounting. */
module RuntimeLaws {
  import opened Wrappers
  import opened MachineInts
  import opened Lexicographic
  import opened OrderedMap
  import opened Words
  import opened Runtime
  import Decimal

  // ----------------------------------------------------------------- exact sums

  /** Slots one reservation takes from a model. */
  function Share(reservation: ModelReservation, model: string): nat {
    if reservation.model == model then reservation.requestedSlots else 0
  }

  function ShareOf(reservation: Option<ModelReservation>, model: string): nat {
    match reservation
    case Some(r) => Share(r, model)
    case None => 0
  }

  /** The sum the fold approximates, in unbounded integers. */
  function SlotsFor(reservations: seq<ModelReservation>, model: string): nat {
    if reservations == [] then 0 else Share(reservations[0], model) + SlotsFor(reservations[1..], model)
  }

  function TotalSlots(reservations: seq<ModelReservation>): nat {
    if reservations == [] then 0 else reservations[0].requestedSlots + TotalSlots(reservations[1..])
  }

  /** Slots of a model held by the live reservations of a state. */
  function LiveSlots(state: State, model: string): nat {
    SlotsFor(Values(state.reservations), model)
  }

  /** The saturating fold is the exact sum, clamped once at the end. */
  lemma {:induction false} FoldIsClampedSum(reservations: seq<ModelReservation>, model: string, acc: u16)
    ensures FoldSlots(reservations, model, acc) == Min(acc + SlotsFor(reservations, model), U16_MAX)
  {
    if reservations != [] {
      var r := reservations[0];
      FoldIsClampedSum(reservations[1..], model, if r.model == model then SatAdd16(acc, r.requestedSlots) else acc);
    }
  }

  lemma {:induction false} SlotsForConcat(a: seq<ModelReservation>, b: seq<ModelReservation>, model: string)
    ensures SlotsFor(a + b, model) == SlotsFor(a, model) + SlotsFor(b, model)
  {
    if a == [] {
      assert a + b == b;
    } else {
      assert (a + b)[1..] == a[1..] + b;
      SlotsForConcat(a[1..], b, model);
    }
  }

  lemma TakeOut<T>(s: seq<T>, i: nat)
    requires i < |s|
    ensures multiset(s[..i] + s[i + 1..]) == multiset(s) - multiset{s[i]}
  {
    assert s == s[..i] + [s[i]] + s[i + 1..];
  }

  lemma {:induction false} SlotsForPermutation(a: seq<ModelReservation>, b: seq<ModelReservation>, model: string)
    requires multiset(a) == multiset(b)
    ensures SlotsFor(a, model) == SlotsFor(b, model)
  {
    assert |a| == |multiset(a)| == |multiset(b)| == |b|;
    if a != [] {
      assert a[0] in multiset(b);
      var i :| 0 <= i < |b| && b[i] == a[0];
      var rest := b[..i] + b[i + 1..];
      assert b == b[..i] + ([b[i]] + b[i + 1..]);
      TakeOut(a, 0);
      TakeOut(b, i);
      assert a[..0] + a[1..] == a[1..];
      assert multiset(rest) == multiset(b) - multiset{b[i]} == multiset(a[1..]);
      SlotsForPermutation(a[1..], rest, model);
      SlotsForConcat(b[..i], b[i + 1..], model);
      SlotsForConcat(b[..i], [b[i]] + b[i + 1..], model);
    }
  }

  /** The order in which the map is walked does not change the fold. */
  lemma FoldIgnoresOrder(a: seq<ModelReservation>, b: seq<ModelReservation>, model: string)
    requires multiset(a) == multiset(b)
    ensures FoldSlots(a, model, 0) == FoldSlots(b, model, 0)
  {
    SlotsForPermutation(a, b, model);
    FoldIsClampedSum(a, model, 0);
    FoldIsClampedSum(b, model, 0);
  }

  /** Inserting adds the new share and takes back what it overwrites. */
  lemma {:induction false} SlotsAfterPut(m: seq<Entry<ModelReservation>>, k: string, v: ModelReservation, model: string)
    requires Sorted(m)
    ensures SlotsFor(Values(Put(m, k, v)), model)
            == SlotsFor(Values(m), model) + Share(v, model) - ShareOf(Get(m, k), model)
  {
    if m == [] {
      assert Values(Put(m, k, v)) == [v];
      assert SlotsFor([v], model) == Share(v, model) + SlotsFor([], model);
    } else if m[0].key == k {
    } else if Less(k, m[0].key) {
      BelowHead(m, k);
      assert ([Entry(k, v)] + m)[1..] == m;
    } else {
      SlotsAfterPut(m[1..], k, v, model);
    }
  }

  lemma {:induction false} SlotsAfterRemove(m: seq<Entry<ModelReservation>>, k: string, model: string)
    ensures SlotsFor(Values(Remove(m, k)), model) == SlotsFor(Values(m), model) - ShareOf(Get(m, k), model)
  {
    if m != [] && m[0].key != k {
      SlotsAfterRemove(m[1..], k, model);
    }
  }

  // ------------------------------------------------------------------ invariant

  ghost predicate WellFormed(served: Served) {
    && Sorted(served.models)
    && forall k :: Get(served.models, k).Some? ==> Get(served.models, k).value.id == k
  }

  /** A live entry: stored under its own id, numbered by the counter so far,
      of a served model, for at least one slot. */
  ghost predicate LiveEntry(served: Served, issued: nat, k: string, r: ModelReservation) {
    && r.reservationId == k
    && r.requestedSlots >= 1
    && Get(served.models, r.model).Some?
    && exists n :: 1 <= n <= issued && k == ReservationId(n)
  }

  ghost predicate NoOverbooking(served: Served, state: State) {
    forall model :: Get(served.models, model).Some? ==>
      LiveSlots(state, model) <= Get(served.models, model).value.maxParallelReservations
  }

  ghost predicate Inv(served: Served, state: State) {
    && Sorted(state.reservations)
    && (forall k :: Get(state.reservations, k).Some? ==>
          LiveEntry(served, state.nextReservationId, k, Get(state.reservations, k).value))
    && NoOverbooking(served, state)
  }

  lemma InitialInv(served: Served)
    ensures Inv(served, INITIAL_STATE)
  {
  }

  /** `resv-` and the number, in at least six digits. */
  predicate IsReservationId(id: string, n: nat) {
    |id| >= 5 && id[..5] == "resv-" && Decimal.Spells(id[5..], n)
  }

  lemma ReservationIdExact(id: string, n: nat)
    ensures id == ReservationId(n) <==> IsReservationId(id, n)
  {
    assert ReservationId(n)[..5] == "resv-" && ReservationId(n)[5..] == Decimal.Padded(n);
    Decimal.PaddedExact(Decimal.Padded(n), n);
    if IsReservationId(id, n) {
      Decimal.PaddedExact(id[5..], n);
      assert id == id[..5] + id[5..];
    }
  }

  lemma ReservationIdInjective(a: nat, b: nat)
    requires ReservationId(a) == ReservationId(b)
    ensures a == b
  {
    assert ReservationId(a)[5..] == Decimal.Padded(a) && ReservationId(b)[5..] == Decimal.Padded(b);
    Decimal.PaddedInjective(a, b);
  }

  /** In any state at all, the saturating fold and the saturating subtraction
      together are the exact subtraction, cut off at zero: capacities fit the
      type, so the fold saturates only where nothing is left. */
  lemma AvailableExact(state: State, model: ModelConfig)
    ensures
      var (held, capacity) := (LiveSlots(state, model.id), model.maxParallelReservations);
      AvailableSlots(model, ReservedSlotsForModel(state, model.id)) == if held >= capacity then 0 else capacity - held
  {
    FoldIsClampedSum(Values(state.reservations), model.id, 0);
  }

  /** In an invariant state the saturating fold saturates nowhere. */
  lemma FoldExact(served: Served, state: State, model: string)
    requires Inv(served, state)
    requires Get(served.models, model).Some?
    ensures ReservedSlotsForModel(state, model) == LiveSlots(state, model)
    ensures AvailableSlots(Get(served.models, model).value, ReservedSlotsForModel(state, model))
            == Get(served.models, model).value.maxParallelReservations - LiveSlots(state, model)
  {
    FoldIsClampedSum(Values(state.reservations), model, 0);
  }

  /** A spent number between the bump and the insert breaks nothing. */
  lemma BumpKeepsInv(served: Served, state: State)
    requires Inv(served, state)
    ensures Inv(served, BumpReservationId(state))
  {
  }

  /** Inserting what fits keeps the invariant even when it overwrites. */
  lemma InsertKeepsInv(served: Served, state: State, r: ModelReservation)
    requires Inv(served, state)
    requires LiveEntry(served, state.nextReservationId, r.reservationId, r)
    requires LiveSlots(state, r.model) + r.requestedSlots
             <= Get(served.models, r.model).value.maxParallelReservations
    ensures Inv(served, InsertReservation(state, r))
  {
    var after := InsertReservation(state, r);
    PutSorted(state.reservations, r.reservationId, r);
    InsertView(state, r);
    forall model | Get(served.models, model).Some?
      ensures LiveSlots(after, model) <= Get(served.models, model).value.maxParallelReservations
    {
      SlotsAfterPut(state.reservations, r.reservationId, r, model);
      assert LiveSlots(state, model) <= Get(served.models, model).value.maxParallelReservations;
    }
  }

  lemma {:induction false} CreateKeepsInv(served: Served, state: State, request: CreateReservationRequest, now: u64)
    requires WellFormed(served) && Inv(served, state)
    ensures Inv(served, CreateReservation(served, state, request, now).0)
  {
    var (after, result) := CreateReservation(served, state, request, now);
    if result.Success? {
      FoldExact(served, state, request.model);
      BumpKeepsInv(served, state);
      var bumped := BumpReservationId(state);
      assert bumped.nextReservationId >= 1;
      assert LiveSlots(bumped, request.model) == LiveSlots(state, request.model);
      InsertKeepsInv(served, bumped, result.value);
    }
  }

  lemma ReleaseKeepsInv(served: Served, state: State, id: string)
    requires Inv(served, state)
    ensures Inv(served, ReleaseReservation(state, id).0)
  {
    var after := ReleaseReservation(state, id).0;
    if after != state {
      RemoveSorted(state.reservations, id);
      forall model | Get(served.models, model).Some?
        ensures LiveSlots(after, model) <= Get(served.models, model).value.maxParallelReservations
      {
        SlotsAfterRemove(state.reservations, id, model);
        assert LiveSlots(state, model) <= Get(served.models, model).value.maxParallelReservations;
      }
    }
  }

  lemma ChatKeepsInv(served: Served, state: State, request: ChatRequest, now: u64)
    requires Inv(served, state)
    ensures Inv(served, ChatCompletion(served, state, request, now).0)
  {
  }

  // ------------------------------------------------------ what the calls promise

  /** The answer to a create, in unbounded integers. */
  ghost predicate CreateAnswer(served: Served, state: State, request: CreateReservationRequest, now: u64,
                               result: Result<ModelReservation, ComputeError>)
  {
    if Blank(request.consumer) then
      result == Failure(InvalidReservationRequest("consumer must not be empty"))
    else if request.requestedSlots == 0 then
      result == Failure(InvalidReservationRequest("requested_slots must be at least 1"))
    else if Get(served.models, request.model).None? then
      result == Failure(ModelNotFound(request.model))
    else
      var capacity := Get(served.models, request.model).value.maxParallelReservations;
      var held := LiveSlots(state, request.model);
      if held + request.requestedSlots > capacity then
        && held <= capacity
        && result == Failure(ModelCapacityExceeded(request.model, request.requestedSlots, capacity - held))
      else
        && result.Success?
        && IsReservationId(result.value.reservationId, Min(state.nextReservationId + 1, U64_MAX))
        && result.value == ModelReservation(
             result.value.reservationId, request.model, request.consumer, request.requestedSlots, now)
  }

  /** `create_reservation`: what it answers, and what it leaves behind. */
  lemma {:induction false} CreateExact(served: Served, state: State, request: CreateReservationRequest, now: u64)
    requires WellFormed(served) && Inv(served, state)
    ensures
      var (after, result) := CreateReservation(served, state, request, now);
      && CreateAnswer(served, state, request, now, result)
      && (result.Failure? ==> after == state)
      && (result.Success? ==>
            && after.nextReservationId == Min(state.nextReservationId + 1, U64_MAX)
            && after.nextCompletionId == state.nextCompletionId
            && forall k :: Get(after.reservations, k)
                 == if k == result.value.reservationId then Some(result.value) else Get(state.reservations, k))
  {
    hide ReservationId, IsReservationId;
    TrimEmpty(request.consumer);
    var (after, result) := CreateReservation(served, state, request, now);
    if Get(served.models, request.model).Some? {
      FoldExact(served, state, request.model);
      assert LiveSlots(state, request.model) <= Get(served.models, request.model).value.maxParallelReservations;
    }
    if result.Success? {
      ReservationIdExact(result.value.reservationId, after.nextReservationId);
      InsertView(BumpReservationId(state), result.value);
    }
  }

  lemma InsertView(state: State, r: ModelReservation)
    ensures forall k :: Get(InsertReservation(state, r).reservations, k)
              == if k == r.reservationId then Some(r) else Get(state.reservations, k)
  {
    forall k
      ensures Get(InsertReservation(state, r).reservations, k)
              == if k == r.reservationId then Some(r) else Get(state.reservations, k)
    {
      GetPut(state.reservations, r.reservationId, r, k);
    }
  }

  /** `release_reservation` succeeds exactly on a live id and removes just it. */
  lemma ReleaseExact(served: Served, state: State, id: string)
    requires Inv(served, state)
    ensures
      var (after, result) := ReleaseReservation(state, id);
      && (result == Success(()) <==> Get(state.reservations, id).Some?)
      && (result != Success(()) ==> after == state && result == Failure(ReservationNotFound(id)))
      && after.nextReservationId == state.nextReservationId
      && after.nextCompletionId == state.nextCompletionId
      && (forall k :: Get(after.reservations, k) == if k == id then None else Get(state.reservations, k))
      && (forall model :: LiveSlots(after, model)
            == LiveSlots(state, model) - ShareOf(Get(state.reservations, id), model))
  {
    RemoveSorted(state.reservations, id);
    forall model
      ensures LiveSlots(ReleaseReservation(state, id).0, model)
              == LiveSlots(state, model) - ShareOf(Get(state.reservations, id), model)
    {
      SlotsAfterRemove(state.reservations, id, model);
    }
  }

  /** Every live reservation once, in the order of the ids as strings. */
  ghost predicate ListsExactly(state: State, list: seq<ModelReservation>) {
    && (forall i, j :: 0 <= i < j < |list| ==> Less(list[i].reservationId, list[j].reservationId))
    && (forall r :: r in list <==> Get(state.reservations, r.reservationId) == Some(r))
  }

  /** `reservations()` lists the live reservations, sorted by id. */
  lemma ListExact(served: Served, state: State)
    requires Inv(served, state)
    ensures ListsExactly(state, Reservations(state))
  {
    var live, list := state.reservations, Reservations(state);
    forall i | 0 <= i < |list|
      ensures list[i].reservationId == live[i].key && Get(live, live[i].key) == Some(list[i])
    {
      GetAt(live, i);
    }
    forall i, j | 0 <= i < j < |list|
      ensures Less(list[i].reservationId, list[j].reservationId)
    {
      SortedPairs(live, i, j);
    }
    forall r: ModelReservation | Get(live, r.reservationId) == Some(r)
      ensures r in list
    {
      var i := GetFrom(live, r.reservationId);
      assert list[i] == r;
    }
  }

  // ------------------------------------------------------------------ inventory

  function SumReserved(rows: seq<LocalModelInventory>): nat {
    if rows == [] then 0 else rows[0].reservedSlots + SumReserved(rows[1..])
  }

  function SumOverModels(models: seq<Entry<ModelConfig>>, reservations: seq<ModelReservation>): nat {
    if models == [] then 0
    else SlotsFor(reservations, models[0].key) + SumOverModels(models[1..], reservations)
  }

  function SharesOverModels(models: seq<Entry<ModelConfig>>, r: ModelReservation): nat {
    if models == [] then 0 else Share(r, models[0].key) + SharesOverModels(models[1..], r)
  }

  lemma {:induction false} OneModelPerReservation(models: seq<Entry<ModelConfig>>, r: ModelReservation)
    requires Sorted(models)
    ensures SharesOverModels(models, r) == if Get(models, r.model).Some? then r.requestedSlots else 0
  {
    if models != [] {
      HeadNotInTail(models);
      OneModelPerReservation(models[1..], r);
    }
  }

  lemma {:induction false} SumOverModelsStep(models: seq<Entry<ModelConfig>>, reservations: seq<ModelReservation>)
    requires reservations != []
    ensures SumOverModels(models, reservations)
            == SharesOverModels(models, reservations[0]) + SumOverModels(models, reservations[1..])
  {
    if models != [] {
      SumOverModelsStep(models[1..], reservations);
    }
  }

  lemma {:induction false} SumOverModelsIsTotal(models: seq<Entry<ModelConfig>>, reservations: seq<ModelReservation>)
    requires Sorted(models)
    requires forall i :: 0 <= i < |reservations| ==> Get(models, reservations[i].model).Some?
    ensures SumOverModels(models, reservations) == TotalSlots(reservations)
  {
    if reservations == [] {
      NothingReserved(models);
    } else {
      SumOverModelsStep(models, reservations);
      OneModelPerReservation(models, reservations[0]);
      SumOverModelsIsTotal(models, reservations[1..]);
    }
  }

  lemma {:induction false} NothingReserved(models: seq<Entry<ModelConfig>>)
    ensures SumOverModels(models, []) == 0
  {
    if models != [] {
      NothingReserved(models[1..]);
    }
  }

  lemma {:induction false} SumReservedIs(models: seq<Entry<ModelConfig>>, state: State, rows: seq<LocalModelInventory>)
    requires |rows| == |models|
    requires forall i :: 0 <= i < |models| ==> rows[i].reservedSlots == LiveSlots(state, models[i].key)
    ensures SumReserved(rows) == SumOverModels(models, Values(state.reservations))
  {
    if models != [] {
      SumReservedIs(models[1..], state, rows[1..]);
    }
  }

  /** One row for each served model, in key order: its configuration, and its
      slots in unbounded integers. */
  ghost predicate InventoryExact(served: Served, state: State, rows: seq<LocalModelInventory>) {
    && |rows| == |served.models|
    && forall i :: 0 <= i < |rows| ==>
         var (id, model) := (served.models[i].key, served.models[i].value);
         var held := LiveSlots(state, id);
         && held <= model.maxParallelReservations
         && rows[i] == LocalModelInventory(
              id, model.family, served.backend, model.contextWindowTokens, model.maxOutputTokens,
              model.maxParallelReservations, held, model.maxParallelReservations - held, model.tags)
  }

  /** Every row adds up without clipping, and the rows together account for
      exactly the slots of the reservation list. */
  lemma InventoryAgrees(served: Served, state: State)
    requires WellFormed(served) && Inv(served, state)
    ensures InventoryExact(served, state, LocalModels(served, state))
    ensures SumReserved(LocalModels(served, state)) == TotalSlots(Reservations(state))
  {
    var rows := LocalModels(served, state);
    forall i | 0 <= i < |rows|
      ensures served.models[i].value.id == served.models[i].key
      ensures rows[i].reservedSlots == LiveSlots(state, served.models[i].key)
      ensures rows[i].availableSlots == rows[i].totalSlots - rows[i].reservedSlots
    {
      GetAt(served.models, i);
      FoldExact(served, state, served.models[i].key);
    }
    SumReservedIs(served.models, state, rows);
    forall i | 0 <= i < |state.reservations|
      ensures Get(served.models, Values(state.reservations)[i].model).Some?
    {
      GetAt(state.reservations, i);
    }
    SumOverModelsIsTotal(served.models, Values(state.reservations));
  }

  // ---------------------------------------------------------------- model table

  /** What `CapabilityAnnouncement::local` advertises: the configured ids, as listed. */
  function AvailableModels(configs: seq<ModelConfig>): seq<string> {
    seq(|configs|, i requires 0 <= i < |configs| => configs[i].id)
  }

  lemma BuildModelsStep(configs: seq<ModelConfig>, k: string)
    requires configs != []
    ensures
      var (init, last) := (configs[..|configs| - 1], configs[|configs| - 1]);
      Get(BuildModels(configs), k) == if k == last.id then Some(last) else Get(BuildModels(init), k)
  {
    var (init, last) := (configs[..|configs| - 1], configs[|configs| - 1]);
    GetPut(BuildModels(init), last.id, last, k);
  }

  /** The table holds exactly the configured ids, each under its own key. */
  lemma {:induction false} BuildModelsKeys(configs: seq<ModelConfig>)
    ensures Sorted(BuildModels(configs))
    ensures forall k :: Get(BuildModels(configs), k).Some? <==> k in AvailableModels(configs)
    ensures forall k :: Get(BuildModels(configs), k).Some? ==> Get(BuildModels(configs), k).value.id == k
  {
    if configs != [] {
      var init, last := configs[..|configs| - 1], configs[|configs| - 1];
      BuildModelsKeys(init);
      PutSorted(BuildModels(init), last.id, last);
      assert AvailableModels(configs) == AvailableModels(init) + [last.id];
      forall k
        ensures Get(BuildModels(configs), k) == if k == last.id then Some(last) else Get(BuildModels(init), k)
      {
        BuildModelsStep(configs, k);
      }
    }
  }

  /** Of several configurations with one id, the last is in force. */
  lemma {:induction false} LastConfigWins(configs: seq<ModelConfig>, i: nat)
    requires i < |configs| && forall j :: i < j < |configs| ==> configs[j].id != configs[i].id
    ensures Get(BuildModels(configs), configs[i].id) == Some(configs[i])
  {
    var n := |configs| - 1;
    BuildModelsStep(configs, configs[i].id);
    if i < n {
      LastConfigWins(configs[..n], i);
    }
  }

  /** What the gateway lists is the advertised list, sorted and without
      duplicates; a request names an advertised id iff lookup succeeds; and a
      duplicated id is served with its last configuration. */
  lemma {:induction false} AdvertisedEqualsServed(configs: seq<ModelConfig>, served: Served, state: State)
    requires served.models == BuildModels(configs)
    ensures WellFormed(served)
    ensures
      var cards := OpenAiModels(served, state);
      && (forall i, j :: 0 <= i < j < |cards| ==> Less(cards[i], cards[j]))
      && (forall id :: id in cards <==> id in AvailableModels(configs))
      && (forall id :: id in AvailableModels(configs) <==> EnsureModelExists(served, id).Success?)
      && (forall i :: 0 <= i < |configs| && (forall j :: i < j < |configs| ==> configs[j].id != configs[i].id)
            ==> EnsureModelExists(served, configs[i].id) == Success(configs[i]))
  {
    BuildModelsKeys(configs);
    forall i | 0 <= i < |configs| && (forall j :: i < j < |configs| ==> configs[j].id != configs[i].id)
      ensures EnsureModelExists(served, configs[i].id) == Success(configs[i])
    {
      LastConfigWins(configs, i);
    }
    CardsAreServed(served, state);
  }

  /** The served ids, each once, in string order. */
  ghost predicate CardsExact(served: Served, cards: seq<string>) {
    && (forall i, j :: 0 <= i < j < |cards| ==> Less(cards[i], cards[j]))
    && (forall id :: id in cards <==> Get(served.models, id).Some?)
  }

  lemma CardsAreServed(served: Served, state: State)
    requires WellFormed(served)
    ensures CardsExact(served, OpenAiModels(served, state))
  {
    var cards := OpenAiModels(served, state);
    forall i | 0 <= i < |cards|
      ensures cards[i] == served.models[i].key && Get(served.models, cards[i]).Some?
    {
      GetAt(served.models, i);
    }
    forall i, j | 0 <= i < j < |cards|
      ensures Less(cards[i], cards[j])
    {
      SortedPairs(served.models, i, j);
    }
    forall id | Get(served.models, id).Some?
      ensures id in cards
    {
      var i := GetFrom(served.models, id);
      assert cards[i] == id;
    }
  }

  // ----------------------------------------------------------- usage accounting

  /** The i-th message is the last of the user, or the last of all if no
      message is the user's. */
  predicate IsPrompt(messages: seq<ChatMessage>, i: int) {
    && 0 <= i < |messages|
    && (forall j :: i < j < |messages| ==> messages[j].role != "user")
    && (messages[i].role != "user" ==>
          i == |messages| - 1 && forall j :: 0 <= j < |messages| ==> messages[j].role != "user")
  }

  lemma {:induction false} PromptIsLastUser(messages: seq<ChatMessage>) returns (i: nat)
    requires messages != []
    ensures IsPrompt(messages, i) && SelectPrompt(messages) == messages[i].content
  {
    var last := LastUserIndex(messages);
    i := if last < 0 then |messages| - 1 else last;
  }

  lemma {:induction false} LastUserIndex(messages: seq<ChatMessage>) returns (i: int)
    ensures -1 <= i < |messages|
    ensures LastUserMessage(messages) == if i < 0 then None else Some(messages[i])
    ensures 0 <= i ==> messages[i].role == "user"
    ensures forall j :: i < j < |messages| ==> messages[j].role != "user"
  {
    if messages == [] {
      i := -1;
    } else if messages[|messages| - 1].role == "user" {
      i := |messages| - 1;
    } else {
      i := LastUserIndex(messages[..|messages| - 1]);
    }
  }

  /** The words of all messages, counted one message at a time. */
  function WordsIn(messages: seq<ChatMessage>): nat {
    if messages == [] then 0 else WordCount(messages[0].content) + WordsIn(messages[1..])
  }

  lemma {:induction false} ContentsHoldTheWords(messages: seq<ChatMessage>)
    ensures SumWordCounts(Contents(messages)) == WordsIn(messages)
  {
    if messages != [] {
      ContentsHoldTheWords(messages[1..]);
      assert Contents(messages)[1..] == Contents(messages[1..]);
    }
  }

  /** Prompt tokens: the words of the messages, with a floor of one. */
  lemma PromptTokens(served: Served, model: ModelConfig, request: ChatRequest)
    ensures UsageOf(served, model, request).promptTokens == Min(Max(WordsIn(request.messages), 1), U32_MAX)
  {
    WordCountOfJoin(Contents(request.messages));
    ContentsHoldTheWords(request.messages);
  }

  function Bracketed(id: string): string {
    "[" + id + "]"
  }

  /** The text of a completion: prefix, bracketed id and prompt, each set off by
      one space, without the whitespace around the whole and around the prompt. */
  function ExpectedContent(prefix: string, id: string, prompt: string): string {
    (if Blank(prefix) then "" else TrimStart(prefix) + " ") + Bracketed(id)
    + if Blank(prompt) then "" else " " + Trim(prompt)
  }

  lemma CompletionExact(prefix: string, id: string, prompt: string)
    ensures CompletionText(prefix, id, prompt) == ExpectedContent(prefix, id, prompt)
  {
    hide TrimStart, TrimEnd, Blank;
    var tag := Bracketed(id);
    var head := (if Blank(prefix) then "" else TrimStart(prefix) + " ") + tag;
    assert prefix + " [" + id + "] " + Trim(prompt) == prefix + " " + (tag + " " + Trim(prompt));
    TrimBefore(prefix, tag + " " + Trim(prompt));
    assert TrimStart(prefix + " " + (tag + " " + Trim(prompt))) == head + " " + Trim(prompt);
    assert head[|head| - 1] == ']';
    TrimAfter(head, prompt);
  }

  /** The completion's words are those of the prefix, the bracketed model id
      and the prompt, in that order, with no whitespace around them. */
  lemma CompletionWords(prefix: string, id: string, prompt: string)
    ensures SplitWhitespace(CompletionText(prefix, id, prompt))
            == SplitWhitespace(prefix) + SplitWhitespace(Bracketed(id)) + SplitWhitespace(prompt)
    ensures TrimmedAtBothEnds(CompletionText(prefix, id, prompt))
  {
    var tag := Bracketed(id);
    var text := prefix + " [" + id + "] " + Trim(prompt);
    assert text == prefix + " " + tag + " " + Trim(prompt);
    SplitTrim(prompt);
    SplitTrim(text);
    TrimTrims(text);
    SplitThree(prefix, tag, Trim(prompt));
  }

  /** Completion tokens: prefix, bracketed id and prompt counted apart. The
      bracketed id holds at least one word, so the floor of one never acts. */
  lemma CompletionTokens(served: Served, model: ModelConfig, request: ChatRequest)
    ensures WordCount(Bracketed(model.id)) >= 1
    ensures UsageOf(served, model, request).completionTokens
            == Min(WordCount(served.responsePrefix) + WordCount(Bracketed(model.id))
                   + WordCount(SelectPrompt(request.messages)), U32_MAX)
  {
    var tag := Bracketed(model.id);
    assert !IsWhitespace(tag[0]);
    CompletionWords(served.responsePrefix, model.id, SelectPrompt(request.messages));
  }

  /** The total is the clamped sum of the parts before they are clamped. */
  lemma TotalTokens(served: Served, model: ModelConfig, request: ChatRequest)
    ensures
      var usage := UsageOf(served, model, request);
      var prompt := Max(WordsIn(request.messages), 1);
      var completion := WordCount(served.responsePrefix) + WordCount(Bracketed(model.id))
                        + WordCount(SelectPrompt(request.messages));
      usage.totalTokens == Min(prompt + completion, U32_MAX)
  {
    PromptTokens(served, model, request);
    CompletionTokens(served, model, request);
  }

  /** `chatcmpl-` and the number, in at least six digits. */
  predicate IsCompletionId(id: string, n: nat) {
    |id| >= 9 && id[..9] == "chatcmpl-" && Decimal.Spells(id[9..], n)
  }

  lemma CompletionIdExact(n: nat)
    ensures IsCompletionId(CompletionId(n), n)
  {
    assert CompletionId(n)[..9] == "chatcmpl-" && CompletionId(n)[9..] == Decimal.Padded(n);
    Decimal.PaddedExact(Decimal.Padded(n), n);
  }

  /** What answers a chat whose prompt is the i-th message. */
  predicate ChatAnswered(served: Served, state: State, request: ChatRequest, now: u64, response: ChatResponse, i: int)
  {
    && IsPrompt(request.messages, i)
    && IsCompletionId(response.id, Min(state.nextCompletionId + 1, U64_MAX))
    && response.created == now && response.model == request.model
    && var (prefix, prompt) := (served.responsePrefix, request.messages[i].content);
       var promptWords := Max(WordsIn(request.messages), 1);
       var completionWords := WordCount(prefix) + WordCount(Bracketed(request.model)) + WordCount(prompt);
       && response.content == ExpectedContent(prefix, request.model, prompt)
       && response.usage.promptTokens == Min(promptWords, U32_MAX)
       && response.usage.completionTokens == Min(completionWords, U32_MAX)
       && response.usage.totalTokens == Min(promptWords + completionWords, U32_MAX)
  }

  /** The answer to a chat completion, in unbounded integers. */
  ghost predicate ChatAnswer(served: Served, state: State, request: ChatRequest, now: u64,
                             result: Result<ChatResponse, ComputeError>)
  {
    if Get(served.models, request.model).None? then
      result == Failure(ModelNotFound(request.model))
    else if request.stream then
      result == Failure(UnsupportedFeature("streaming chat completions are not implemented yet"))
    else if request.messages == [] then
      result == Failure(InvalidChatRequest("messages must not be empty"))
    else
      result.Success? && exists i :: ChatAnswered(served, state, request, now, result.value, i)
  }

  lemma ChatLockedExact(served: Served, state: State, model: ModelConfig, request: ChatRequest, now: u64)
    returns (i: nat)
    requires model.id == request.model && request.messages != []
    ensures
      var (after, response) := ChatLocked(served, state, model, request, now);
      && ChatAnswered(served, state, request, now, response, i)
      && after == state.(nextCompletionId := Min(state.nextCompletionId + 1, U64_MAX))
  {
    hide WordCount, Bracketed, ExpectedContent, IsPrompt, IsCompletionId, CompletionId;
    hide WordsIn, UsageOf, CompletionText, SelectPrompt;
    i := PromptIsLastUser(request.messages);
    PromptTokens(served, model, request);
    CompletionTokens(served, model, request);
    TotalTokens(served, model, request);
    CompletionExact(served.responsePrefix, model.id, request.messages[i].content);
    CompletionIdExact(Min(state.nextCompletionId + 1, U64_MAX));
  }

  /** `chat_completion`: what it answers; only the completion counter moves, and
      only for an answer. */
  lemma {:induction false} ChatExact(served: Served, state: State, request: ChatRequest, now: u64)
    requires WellFormed(served)
    ensures
      var (after, result) := ChatCompletion(served, state, request, now);
      && ChatAnswer(served, state, request, now, result)
      && after == state.(nextCompletionId := after.nextCompletionId)
      && after.nextCompletionId
         == if result.Success? then Min(state.nextCompletionId + 1, U64_MAX) else state.nextCompletionId
  {
    hide ChatLocked;
    if ValidateChat(served, request).Success? {
      var i := ChatLockedExact(served, state, ValidateChat(served, request).value, request, now);
    }
  }
}
