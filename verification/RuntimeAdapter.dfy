/** `SkeletonRuntimeAdapter` in its own form: fixed fields and a mutable state
    that the operations update in place. Each call here runs alone, as it does
    while it holds the mutex; Concurrency.dfy interleaves them. */
module RuntimeAdapter {
  import opened Wrappers
  import opened MachineInts
  import opened OrderedMap
  import opened Words
  import opened Runtime
  import opened RuntimeLaws

  class SkeletonRuntimeState {
    var nextReservationId: u64
    var nextCompletionId: u64
    var reservations: seq<Entry<ModelReservation>>

    constructor ()
      ensures Value() == INITIAL_STATE
    {
      nextReservationId, nextCompletionId, reservations := 0, 0, [];
    }

    function Value(): State
      reads this
    {
      State(nextReservationId, nextCompletionId, reservations)
    }
  }

  class SkeletonRuntimeAdapter {
    const backend: RuntimeBackend
    const responsePrefix: string
    const models: seq<Entry<ModelConfig>>
    const state: SkeletonRuntimeState

    function Served(): Served {
      Runtime.Served(backend, responsePrefix, models)
    }

    ghost predicate Valid()
      reads state
    {
      WellFormed(Served()) && Inv(Served(), state.Value())
    }

    constructor (backend: RuntimeBackend, responsePrefix: string, configs: seq<ModelConfig>)
      ensures Valid() && fresh(state)
      ensures Served() == Runtime.Served(backend, responsePrefix, BuildModels(configs))
      ensures state.Value() == INITIAL_STATE
    {
      this.backend, this.responsePrefix := backend, responsePrefix;
      models := BuildModels(configs);
      state := new SkeletonRuntimeState();
      new;
      BuildModelsKeys(configs);
      InitialInv(Served());
    }

    /** Grants or refuses, as `CreateAnswer` says in unbounded integers. */
    method CreateReservation(request: CreateReservationRequest, now: u64)
      returns (result: Result<ModelReservation, ComputeError>)
      requires Valid()
      modifies state
      ensures Valid()
      ensures (state.Value(), result) == Runtime.CreateReservation(Served(), old(state.Value()), request, now)
      ensures CreateAnswer(Served(), old(state.Value()), request, now, result)
    {
      hide Inv, WellFormed, CreateAnswer, ReservationId, Trim, Put, FoldSlots;
      CreateExact(Served(), state.Value(), request, now);
      CreateKeepsInv(Served(), state.Value(), request, now);
      if Trim(request.consumer) == "" {
        return Failure(InvalidReservationRequest("consumer must not be empty"));
      }
      if request.requestedSlots == 0 {
        return Failure(InvalidReservationRequest("requested_slots must be at least 1"));
      }
      var lookup := EnsureModelExists(Served(), request.model);
      if lookup.Failure? {
        return Failure(lookup.error);
      }
      var model := lookup.value;
      var reservedSlots := ReservedSlotsForModel(state.Value(), model.id);
      var availableSlots := SatSub16(model.maxParallelReservations, reservedSlots);
      if request.requestedSlots > availableSlots {
        return Failure(ModelCapacityExceeded(model.id, request.requestedSlots, availableSlots));
      }
      state.nextReservationId := SatAdd64(state.nextReservationId, 1);
      var reservation := ModelReservation(
        ReservationId(state.nextReservationId), model.id, request.consumer, request.requestedSlots, now);
      state.reservations := Put(state.reservations, reservation.reservationId, reservation);
      return Success(reservation);
    }

    method ReleaseReservation(reservationId: string) returns (result: Result<(), ComputeError>)
      requires Valid()
      modifies state
      ensures Valid()
      ensures (state.Value(), result) == Runtime.ReleaseReservation(old(state.Value()), reservationId)
      ensures result == if Get(old(state.reservations), reservationId).Some? then Success(())
                        else Failure(ReservationNotFound(reservationId))
    {
      ReleaseKeepsInv(Served(), state.Value(), reservationId);
      var removed := Get(state.reservations, reservationId);
      state.reservations := Remove(state.reservations, reservationId);
      if removed.Some? {
        return Success(());
      } else {
        RemoveAbsent(old(state.reservations), reservationId);
        return Failure(ReservationNotFound(reservationId));
      }
    }

    method ChatCompletion(request: ChatRequest, now: u64) returns (result: Result<ChatResponse, ComputeError>)
      requires Valid()
      modifies state`nextCompletionId
      ensures Valid()
      ensures (state.Value(), result) == Runtime.ChatCompletion(Served(), old(state.Value()), request, now)
      ensures ChatAnswer(Served(), old(state.Value()), request, now, result)
    {
      hide Inv, WellFormed, ChatAnswer, WordCount, CompletionId, JoinWithSpace, CompletionText, SelectPrompt;
      ChatExact(Served(), state.Value(), request, now);
      ChatKeepsInv(Served(), state.Value(), request, now);
      var lookup := EnsureModelExists(Served(), request.model);
      if lookup.Failure? {
        return Failure(lookup.error);
      }
      if request.stream {
        return Failure(UnsupportedFeature("streaming chat completions are not implemented yet"));
      }
      if request.messages == [] {
        return Failure(InvalidChatRequest("messages must not be empty"));
      }
      var completion :=
        CompletionText(responsePrefix, lookup.value.id, SelectPrompt(request.messages));
      var promptTokens := EstimatedTokens(JoinWithSpace(Contents(request.messages)));
      var completionTokens := EstimatedTokens(completion);
      var totalTokens := SatAdd32(promptTokens, completionTokens);
      state.nextCompletionId := SatAdd64(state.nextCompletionId, 1);
      return Success(ChatResponse(
        CompletionId(state.nextCompletionId), now, lookup.value.id, completion,
        Usage(promptTokens, completionTokens, totalTokens)));
    }

    /** One exact row per model; the rows add up to the slots of the list. */
    function LocalModels(): (rows: seq<LocalModelInventory>)
      requires Valid()
      reads state
      ensures InventoryExact(Served(), state.Value(), rows)
      ensures SumReserved(rows) == TotalSlots(Reservations())
    {
      InventoryAgrees(Served(), state.Value());
      Runtime.LocalModels(Served(), state.Value())
    }

    function OpenAiModels(): (cards: seq<string>)
      requires Valid()
      reads state
      ensures CardsExact(Served(), cards)
    {
      CardsAreServed(Served(), state.Value());
      Runtime.OpenAiModels(Served(), state.Value())
    }

    function Reservations(): (list: seq<ModelReservation>)
      requires Valid()
      reads state
      ensures ListsExactly(state.Value(), list)
    {
      ListExact(Served(), state.Value());
      Runtime.Reservations(state.Value())
    }
  }
}
