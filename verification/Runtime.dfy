/** src/runtime.rs on values: the data of the skeleton runtime and what each
    of its operations computes from the served configuration and the state. */
module Runtime {
  import opened Wrappers
  import opened MachineInts
  import opened OrderedMap
  import opened Words
  import Decimal

  datatype RuntimeBackend = Skeleton

  datatype ModelConfig = ModelConfig(
    id: string,
    family: string,
    contextWindowTokens: u32,
    maxOutputTokens: u32,
    maxParallelReservations: u16,
    tags: seq<string>)

  datatype LocalModelInventory = LocalModelInventory(
    id: string,
    family: string,
    runtimeBackend: RuntimeBackend,
    contextWindowTokens: u32,
    maxOutputTokens: u32,
    totalSlots: u16,
    reservedSlots: u16,
    availableSlots: u16,
    tags: seq<string>)

  datatype CreateReservationRequest = CreateReservationRequest(model: string, consumer: string, requestedSlots: u16)

  datatype ModelReservation = ModelReservation(
    reservationId: string,
    model: string,
    consumer: string,
    requestedSlots: u16,
    grantedAtUnixSecs: u64)

  datatype ChatMessage = ChatMessage(role: string, content: string)
  datatype ChatRequest = ChatRequest(model: string, messages: seq<ChatMessage>, stream: bool)
  datatype Usage = Usage(promptTokens: u32, completionTokens: u32, totalTokens: u32)
  datatype ChatResponse = ChatResponse(id: string, created: u64, model: string, content: string, usage: Usage)

  datatype ComputeError =
    | ModelNotFound(model: string)
    | ModelCapacityExceeded(model: string, requestedSlots: u16, availableSlots: u16)
    | ReservationNotFound(reservationId: string)
    | InvalidReservationRequest(reason: string)
    | InvalidChatRequest(reason: string)
    | UnsupportedFeature(reason: string)

  /** The part of the adapter that never changes after `new`. */
  datatype Served = Served(backend: RuntimeBackend, responsePrefix: string, models: seq<Entry<ModelConfig>>)

  /** `SkeletonRuntimeState`, the part behind the mutex. */
  datatype State = State(
    nextReservationId: u64,
    nextCompletionId: u64,
    reservations: seq<Entry<ModelReservation>>)

  const INITIAL_STATE := State(0, 0, [])

  /** Collecting `(id, model)` pairs into a `BTreeMap`: a later duplicate wins. */
  function BuildModels(configs: seq<ModelConfig>): seq<Entry<ModelConfig>> {
    if configs == [] then []
    else
      var last := configs[|configs| - 1];
      Put(BuildModels(configs[..|configs| - 1]), last.id, last)
  }

  function EnsureModelExists(served: Served, model: string): Result<ModelConfig, ComputeError> {
    match Get(served.models, model)
    case Some(config) => Success(config)
    case None => Failure(ModelNotFound(model))
  }

  // ------------------------------------------------------------------ inventory

  /** The filtered saturating fold behind `reserved_slots_for_model`. */
  function FoldSlots(reservations: seq<ModelReservation>, model: string, acc: u16): u16 {
    if reservations == [] then acc
    else
      var r := reservations[0];
      FoldSlots(reservations[1..], model, if r.model == model then SatAdd16(acc, r.requestedSlots) else acc)
  }

  function ReservedSlotsForModel(state: State, model: string): u16 {
    FoldSlots(Values(state.reservations), model, 0)
  }

  function AvailableSlots(model: ModelConfig, reservedSlots: u16): u16 {
    SatSub16(model.maxParallelReservations, reservedSlots)
  }

  function InventoryForModel(served: Served, model: ModelConfig, reservedSlots: u16): LocalModelInventory {
    LocalModelInventory(
      model.id, model.family, served.backend, model.contextWindowTokens, model.maxOutputTokens,
      model.maxParallelReservations, reservedSlots, AvailableSlots(model, reservedSlots), model.tags)
  }

  function LocalModels(served: Served, state: State): seq<LocalModelInventory> {
    seq(|served.models|, i requires 0 <= i < |served.models| =>
      var model := served.models[i].value;
      InventoryForModel(served, model, ReservedSlotsForModel(state, model.id)))
  }

  /** The ids of the model cards; the other card fields are constants. */
  function OpenAiModels(served: Served, state: State): seq<string> {
    var rows := LocalModels(served, state);
    seq(|rows|, i requires 0 <= i < |rows| => rows[i].id)
  }

  // --------------------------------------------------------------- reservations

  function ReservationId(n: nat): string {
    "resv-" + Decimal.Padded(n)
  }

  /** The checks before the lock is taken: they read only the request and `models`. */
  function ValidateCreate(served: Served, request: CreateReservationRequest): Result<ModelConfig, ComputeError> {
    if Trim(request.consumer) == "" then
      Failure(InvalidReservationRequest("consumer must not be empty"))
    else if request.requestedSlots == 0 then
      Failure(InvalidReservationRequest("requested_slots must be at least 1"))
    else
      EnsureModelExists(served, request.model)
  }

  function BumpReservationId(state: State): State {
    state.(nextReservationId := SatAdd64(state.nextReservationId, 1))
  }

  function NewReservation(state: State, model: ModelConfig, request: CreateReservationRequest, now: u64)
    : ModelReservation
  {
    ModelReservation(ReservationId(state.nextReservationId), model.id, request.consumer, request.requestedSlots, now)
  }

  function InsertReservation(state: State, reservation: ModelReservation): State {
    state.(reservations := Put(state.reservations, reservation.reservationId, reservation))
  }

  /** The critical section of `create_reservation`. */
  function CreateLocked(state: State, model: ModelConfig, request: CreateReservationRequest, now: u64)
    : (State, Result<ModelReservation, ComputeError>)
  {
    var available := AvailableSlots(model, ReservedSlotsForModel(state, model.id));
    if request.requestedSlots > available then
      (state, Failure(ModelCapacityExceeded(model.id, request.requestedSlots, available)))
    else
      var bumped := BumpReservationId(state);
      var reservation := NewReservation(bumped, model, request, now);
      (InsertReservation(bumped, reservation), Success(reservation))
  }

  function CreateReservation(served: Served, state: State, request: CreateReservationRequest, now: u64)
    : (State, Result<ModelReservation, ComputeError>)
  {
    match ValidateCreate(served, request)
    case Failure(error) => (state, Failure(error))
    case Success(model) => CreateLocked(state, model, request, now)
  }

  function Reservations(state: State): seq<ModelReservation> {
    Values(state.reservations)
  }

  function ReleaseReservation(state: State, reservationId: string): (State, Result<(), ComputeError>) {
    if Get(state.reservations, reservationId).Some? then
      (state.(reservations := Remove(state.reservations, reservationId)), Success(()))
    else
      (state, Failure(ReservationNotFound(reservationId)))
  }

  // ---------------------------------------------------------------- completions

  function ValidateChat(served: Served, request: ChatRequest): Result<ModelConfig, ComputeError> {
    match EnsureModelExists(served, request.model)
    case Failure(error) => Failure(error)
    case Success(model) =>
      if request.stream then
        Failure(UnsupportedFeature("streaming chat completions are not implemented yet"))
      else if request.messages == [] then
        Failure(InvalidChatRequest("messages must not be empty"))
      else
        Success(model)
  }

  /** `.iter().rev().find(|message| message.role == "user")`. */
  function LastUserMessage(messages: seq<ChatMessage>): Option<ChatMessage> {
    if messages == [] then None
    else if messages[|messages| - 1].role == "user" then Some(messages[|messages| - 1])
    else LastUserMessage(messages[..|messages| - 1])
  }

  function SelectPrompt(messages: seq<ChatMessage>): string {
    match LastUserMessage(messages)
    case Some(message) => message.content
    case None => if messages == [] then "" else messages[|messages| - 1].content
  }

  function CompletionText(prefix: string, modelId: string, prompt: string): string {
    Trim(prefix + " [" + modelId + "] " + Trim(prompt))
  }

  function Contents(messages: seq<ChatMessage>): (contents: seq<string>)
    ensures |contents| == |messages|
    ensures forall i :: 0 <= i < |messages| ==> contents[i] == messages[i].content
  {
    seq(|messages|, i requires 0 <= i < |messages| => messages[i].content)
  }

  function EstimatedTokens(text: string): u32 {
    Min(Max(WordCount(text), 1), U32_MAX)
  }

  function UsageOf(served: Served, model: ModelConfig, request: ChatRequest): Usage {
    var promptTokens := EstimatedTokens(JoinWithSpace(Contents(request.messages)));
    var completionTokens :=
      EstimatedTokens(CompletionText(served.responsePrefix, model.id, SelectPrompt(request.messages)));
    Usage(promptTokens, completionTokens, SatAdd32(promptTokens, completionTokens))
  }

  function CompletionId(n: nat): string {
    "chatcmpl-" + Decimal.Padded(n)
  }

  /** What follows the checks: the only locked step is the counter bump. */
  function ChatLocked(served: Served, state: State, model: ModelConfig, request: ChatRequest, now: u64)
    : (State, ChatResponse)
  {
    var bumped := state.(nextCompletionId := SatAdd64(state.nextCompletionId, 1));
    (bumped,
     ChatResponse(
       CompletionId(bumped.nextCompletionId), now, model.id,
       CompletionText(served.responsePrefix, model.id, SelectPrompt(request.messages)),
       UsageOf(served, model, request)))
  }

  function ChatCompletion(served: Served, state: State, request: ChatRequest, now: u64)
    : (State, Result<ChatResponse, ComputeError>)
  {
    match ValidateChat(served, request)
    case Failure(error) => (state, Failure(error))
    case Success(model) =>
      var (after, response) := ChatLocked(served, state, model, request, now);
      (after, Success(response))
  }
}
