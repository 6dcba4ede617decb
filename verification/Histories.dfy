/** Histories of the reservation map: the states a run goes through and how each
    step touched the map. Ids, slots and order are accounted for from the
    effects alone and then compared with the states. */
module Histories {
  import opened Wrappers
  import opened MachineInts
  import opened Lexicographic
  import opened OrderedMap
  import opened Runtime
  import opened RuntimeLaws
  import Decimal

  /** How one operation touched the reservations: a grant, a number spent by a
      client that died before inserting, a release, or nothing. */
  datatype Effect = Grant(reservation: ModelReservation) | Burn | Free(reservationId: string) | Quiet

  ghost predicate StepRel(before: State, effect: Effect, after: State) {
    match effect
    case Grant(r) =>
      && after.nextReservationId == Min(before.nextReservationId + 1, U64_MAX)
      && r.reservationId == ReservationId(after.nextReservationId)
      && after.reservations == Put(before.reservations, r.reservationId, r)
    case Burn =>
      && after.nextReservationId == Min(before.nextReservationId + 1, U64_MAX)
      && after.reservations == before.reservations
    case Free(id) =>
      && after.nextReservationId == before.nextReservationId
      && Get(before.reservations, id).Some?
      && after.reservations == Remove(before.reservations, id)
    case Quiet =>
      && after.nextReservationId == before.nextReservationId
      && after.reservations == before.reservations
  }

  /** How many effects moved the id counter. */
  function Bumps(effects: seq<Effect>): nat {
    if effects == [] then 0
    else
      Bumps(effects[..|effects| - 1])
      + if effects[|effects| - 1].Grant? || effects[|effects| - 1].Burn? then 1 else 0
  }

  /** The most recent grant of an id. */
  function LastGrant(effects: seq<Effect>, id: string): Option<ModelReservation> {
    if effects == [] then None
    else
      var (init, last) := (effects[..|effects| - 1], effects[|effects| - 1]);
      if last.Grant? && last.reservation.reservationId == id then Some(last.reservation) else LastGrant(init, id)
  }

  function GrantedSlots(effects: seq<Effect>, model: string): nat {
    if effects == [] then 0
    else
      var (init, last) := (effects[..|effects| - 1], effects[|effects| - 1]);
      GrantedSlots(init, model) + if last.Grant? then Share(last.reservation, model) else 0
  }

  /** A release gives back what the most recent grant of its id was given. */
  function ReleasedSlots(effects: seq<Effect>, model: string): nat {
    if effects == [] then 0
    else
      var (init, last) := (effects[..|effects| - 1], effects[|effects| - 1]);
      ReleasedSlots(init, model) + if last.Free? then ShareOf(LastGrant(init, last.reservationId), model) else 0
  }

  /** The live reservations as a plain list: grants append, releases delete. */
  function LiveInGrantOrder(effects: seq<Effect>): seq<ModelReservation> {
    if effects == [] then []
    else
      var (init, last) := (effects[..|effects| - 1], effects[|effects| - 1]);
      match last
      case Grant(r) => LiveInGrantOrder(init) + [r]
      case Free(id) => Without(LiveInGrantOrder(init), id)
      case _ => LiveInGrantOrder(init)
  }

  function Without(reservations: seq<ModelReservation>, id: string): seq<ModelReservation> {
    if reservations == [] then []
    else if reservations[0].reservationId == id then Without(reservations[1..], id)
    else [reservations[0]] + Without(reservations[1..], id)
  }

  ghost predicate GrantIdsDistinct(effects: seq<Effect>) {
    forall i, j :: 0 <= i < j < |effects| && effects[i].Grant? && effects[j].Grant? ==>
      effects[i].reservation.reservationId != effects[j].reservation.reservationId
  }

  ghost predicate NoSecondRelease(effects: seq<Effect>) {
    forall i, j :: 0 <= i < j < |effects| && effects[i].Free? && effects[j].Free? ==>
      effects[i].reservationId != effects[j].reservationId
  }

  ghost predicate LedgerBalances(final: State, effects: seq<Effect>) {
    forall model :: LiveSlots(final, model) + ReleasedSlots(effects, model) == GrantedSlots(effects, model)
  }

  datatype History = History(states: seq<State>, effects: seq<Effect>) {

    ghost predicate Legal(served: Served) {
      && |states| == |effects| + 1
      && states[0] == INITIAL_STATE
      && (forall i :: 0 <= i <= |effects| ==> InvAt(served, i))
      && (forall i :: 0 <= i < |effects| ==> StepAt(i))
    }

    ghost predicate InvAt(served: Served, i: nat)
      requires i < |states|
    {
      Inv(served, states[i])
    }

    ghost predicate StepAt(i: nat)
      requires i < |effects| && i + 1 < |states|
    {
      StepRel(states[i], effects[i], states[i + 1])
    }

    /** The next grant gets an id that a later one may repeat. */
    predicate CounterSpent(i: nat)
      requires i < |states|
    {
      states[i].nextReservationId + 1 >= U64_MAX
    }

    /** The counter is saturated and the id it keeps issuing is in use. */
    predicate ClampedIdLive(i: nat)
      requires i < |states|
    {
      states[i].nextReservationId == U64_MAX && Get(states[i].reservations, ReservationId(U64_MAX)).Some?
    }

    /** Slots of live entries that a grant replaced because its id was in use. */
    function OverwrittenSlots(n: nat, model: string): nat
      requires n <= |effects| < |states|
    {
      if n == 0 then 0
      else
        OverwrittenSlots(n - 1, model)
        + if effects[n - 1].Grant?
          then ShareOf(Get(states[n - 1].reservations, effects[n - 1].reservation.reservationId), model)
          else 0
    }
  }

  lemma Last(effects: seq<Effect>, n: nat)
    requires 0 < n <= |effects|
    ensures effects[..n][..n - 1] == effects[..n - 1] && effects[..n][n - 1] == effects[n - 1]
  {
  }

  // -------------------------------------------------------------------- numbers

  lemma {:induction false} CounterIsBumps(served: Served, h: History, n: nat)
    requires h.Legal(served) && n <= |h.effects|
    ensures h.states[n].nextReservationId == Min(Bumps(h.effects[..n]), U64_MAX)
  {
    if n > 0 {
      CounterIsBumps(served, h, n - 1);
      Last(h.effects, n);
      assert h.StepAt(n - 1);
    }
  }

  lemma {:induction false} BumpsGrow(effects: seq<Effect>, i: nat, j: nat)
    requires i <= j <= |effects|
    ensures Bumps(effects[..i]) <= Bumps(effects[..j])
  {
    if i < j {
      BumpsGrow(effects, i, j - 1);
      Last(effects, j);
    }
  }

  lemma {:induction false} BumpsBetween(effects: seq<Effect>, i: nat, j: nat)
    requires i < j <= |effects| && effects[i].Grant?
    ensures Bumps(effects[..i]) < Bumps(effects[..j]) <= Bumps(effects)
  {
    Last(effects, i + 1);
    BumpsGrow(effects, i + 1, j);
    BumpsGrow(effects, j, |effects|);
    assert effects[..|effects|] == effects;
  }

  /** The id of a grant is `resv-` and its place in the sequence of bumps,
      clamped, in at least six digits. */
  lemma GrantId(served: Served, h: History, i: nat)
    requires h.Legal(served) && i < |h.effects| && h.effects[i].Grant?
    ensures IsReservationId(h.effects[i].reservation.reservationId, Min(Bumps(h.effects[..i]) + 1, U64_MAX))
  {
    hide ReservationId, IsReservationId;
    GrantNumber(served, h, i);
    ReservationIdExact(h.effects[i].reservation.reservationId, Min(Bumps(h.effects[..i]) + 1, U64_MAX));
  }

  lemma GrantNumber(served: Served, h: History, i: nat)
    requires h.Legal(served) && i < |h.effects| && h.effects[i].Grant?
    ensures h.effects[i].reservation.reservationId == ReservationId(Min(Bumps(h.effects[..i]) + 1, U64_MAX))
  {
    CounterIsBumps(served, h, i);
    assert h.StepAt(i);
  }

  /** A grant repeats no number issued before, the clamp alone excepted. */
  lemma GrantNumberIsNew(served: Served, h: History, i: nat, number: nat)
    requires h.Legal(served) && i < |h.effects| && h.effects[i].Grant?
    requires number <= Bumps(h.effects[..i]) && number < U64_MAX
    ensures h.effects[i].reservation.reservationId != ReservationId(number)
  {
    GrantNumber(served, h, i);
    var issued: nat := Min(Bumps(h.effects[..i]) + 1, U64_MAX);
    if ReservationId(number) == ReservationId(issued) {
      ReservationIdInjective(number, issued);
    }
  }

  /** A live id is a number issued so far. */
  lemma LiveNumber(served: Served, h: History, i: nat, id: string) returns (number: nat)
    requires h.Legal(served) && i <= |h.effects|
    requires Get(h.states[i].reservations, id).Some?
    ensures id == ReservationId(number) && number <= Bumps(h.effects[..i]) && number <= U64_MAX
  {
    assert h.InvAt(served, i);
    CounterIsBumps(served, h, i);
    var n :| 1 <= n <= h.states[i].nextReservationId && id == ReservationId(n);
    number := n;
  }

  lemma StepView(served: Served, h: History, i: nat, k: string)
    requires h.Legal(served) && i < |h.effects|
    ensures
      var before := Get(h.states[i].reservations, k);
      Get(h.states[i + 1].reservations, k)
      == match h.effects[i]
         case Grant(r) => if k == r.reservationId then Some(r) else before
         case Free(id) => if k == id then None else before
         case _ => before
  {
    assert h.StepAt(i) && h.InvAt(served, i);
    match h.effects[i]
    case Grant(r) => GetPut(h.states[i].reservations, r.reservationId, r, k);
    case Free(id) => RemoveSorted(h.states[i].reservations, id);
    case _ =>
  }

  /** A live entry is the most recent grant of its id. */
  lemma {:induction false} LiveIsLastGrant(served: Served, h: History, n: nat, k: string)
    requires h.Legal(served) && n <= |h.effects|
    requires Get(h.states[n].reservations, k).Some?
    ensures LastGrant(h.effects[..n], k) == Get(h.states[n].reservations, k)
  {
    if n > 0 {
      StepView(served, h, n - 1, k);
      Last(h.effects, n);
      var effect := h.effects[n - 1];
      if !(effect.Grant? && effect.reservation.reservationId == k) {
        LiveIsLastGrant(served, h, n - 1, k);
      }
    }
  }

  // --------------------------------------------------------------------- ledger

  lemma LedgerStep(served: Served, h: History, i: nat, model: string)
    requires h.Legal(served) && i < |h.effects|
    ensures
      LiveSlots(h.states[i + 1], model) - LiveSlots(h.states[i], model)
      == match h.effects[i]
         case Grant(r) => Share(r, model) - ShareOf(Get(h.states[i].reservations, r.reservationId), model)
         case Free(id) => 0 - ShareOf(LastGrant(h.effects[..i], id), model)
         case _ => 0
  {
    assert h.StepAt(i) && h.InvAt(served, i);
    match h.effects[i]
    case Grant(r) => SlotsAfterPut(h.states[i].reservations, r.reservationId, r, model);
    case Free(id) =>
      SlotsAfterRemove(h.states[i].reservations, id, model);
      LiveIsLastGrant(served, h, i, id);
    case _ =>
  }

  /** Conservation with no bound: granted slots are live, released, or lost to
      an overwrite under a saturated counter. */
  lemma {:induction false} Ledger(served: Served, h: History, n: nat, model: string)
    requires h.Legal(served) && n <= |h.effects|
    ensures LiveSlots(h.states[n], model) + ReleasedSlots(h.effects[..n], model) + h.OverwrittenSlots(n, model)
            == GrantedSlots(h.effects[..n], model)
  {
    if n > 0 {
      Ledger(served, h, n - 1, model);
      LedgerStep(served, h, n - 1, model);
      Last(h.effects, n);
    }
  }

  /** An unsaturated counter makes every new id fresh. */
  lemma NewIdIsFresh(served: Served, h: History, i: nat)
    requires h.Legal(served) && i < |h.effects| && h.effects[i].Grant?
    requires Bumps(h.effects[..i]) < U64_MAX
    ensures Get(h.states[i].reservations, h.effects[i].reservation.reservationId).None?
  {
    if Get(h.states[i].reservations, h.effects[i].reservation.reservationId).Some? {
      var number := LiveNumber(served, h, i, h.effects[i].reservation.reservationId);
      GrantNumberIsNew(served, h, i, number);
    }
  }

  /** A grant replaces a live entry exactly when the counter is saturated and
      its clamped id is live. */
  lemma OverwritesIff(served: Served, h: History, i: nat)
    requires h.Legal(served) && i < |h.effects| && h.effects[i].Grant?
    ensures Get(h.states[i].reservations, h.effects[i].reservation.reservationId).Some? <==> h.ClampedIdLive(i)
  {
    CounterIsBumps(served, h, i);
    GrantNumber(served, h, i);
    if Bumps(h.effects[..i]) < U64_MAX {
      NewIdIsFresh(served, h, i);
    }
  }

  lemma {:induction false} NothingOverwritten(served: Served, h: History, n: nat, model: string)
    requires h.Legal(served) && n <= |h.effects|
    requires forall i :: 0 <= i < n && h.effects[i].Grant? ==> !h.ClampedIdLive(i)
    ensures h.OverwrittenSlots(n, model) == 0
  {
    if n > 0 {
      NothingOverwritten(served, h, n - 1, model);
      if h.effects[n - 1].Grant? {
        OverwritesIff(served, h, n - 1);
      }
    }
  }

  lemma {:induction false} OverwrittenGrows(h: History, i: nat, n: nat, model: string)
    requires i <= n <= |h.effects| < |h.states|
    ensures h.OverwrittenSlots(i, model) <= h.OverwrittenSlots(n, model)
  {
    if i < n {
      OverwrittenGrows(h, i, n - 1, model);
    }
  }

  lemma LostSlot(served: Served, h: History, i: nat) returns (model: string)
    requires h.Legal(served) && i < |h.effects| && h.effects[i].Grant? && h.ClampedIdLive(i)
    ensures h.OverwrittenSlots(|h.effects|, model) > 0
  {
    var id := h.effects[i].reservation.reservationId;
    OverwritesIff(served, h, i);
    assert h.InvAt(served, i);
    model := Get(h.states[i].reservations, id).value.model;
    assert h.OverwrittenSlots(i + 1, model) > 0;
    OverwrittenGrows(h, i + 1, |h.effects|, model);
  }

  /** Exactly when the ledger balances: no create is granted while the counter
      is saturated and its clamped id is live. */
  lemma LedgerIff(served: Served, h: History)
    requires h.Legal(served)
    ensures LedgerBalances(h.states[|h.effects|], h.effects)
            <==> forall i :: 0 <= i < |h.effects| && h.effects[i].Grant? ==> !h.ClampedIdLive(i)
  {
    var n := |h.effects|;
    assert h.effects[..n] == h.effects;
    forall model
      ensures LiveSlots(h.states[n], model) + ReleasedSlots(h.effects, model) == GrantedSlots(h.effects, model)
              <==> h.OverwrittenSlots(n, model) == 0
    {
      Ledger(served, h, n, model);
    }
    if i :| 0 <= i < n && h.effects[i].Grant? && h.ClampedIdLive(i) {
      var model := LostSlot(served, h, i);
      assert LiveSlots(h.states[n], model) + ReleasedSlots(h.effects, model) != GrantedSlots(h.effects, model);
    } else {
      forall model
        ensures h.OverwrittenSlots(n, model) == 0
      {
        NothingOverwritten(served, h, n, model);
      }
    }
  }

  lemma Conservation(served: Served, h: History)
    requires h.Legal(served) && Bumps(h.effects) <= U64_MAX
    ensures LedgerBalances(h.states[|h.effects|], h.effects)
  {
    forall i | 0 <= i < |h.effects| && h.effects[i].Grant?
      ensures !h.ClampedIdLive(i)
    {
      BumpsBetween(h.effects, i, i + 1);
      CounterIsBumps(served, h, i);
    }
    LedgerIff(served, h);
  }

  /** A grant that overwrites nothing moves its own model by exactly its slots,
      and no other. */
  lemma GrantMovesOwnModel(served: Served, h: History, i: nat, model: string)
    requires h.Legal(served) && i < |h.effects| && h.effects[i].Grant?
    requires !h.ClampedIdLive(i)
    ensures LiveSlots(h.states[i + 1], model)
            == LiveSlots(h.states[i], model) + Share(h.effects[i].reservation, model)
  {
    LedgerStep(served, h, i, model);
    OverwritesIff(served, h, i);
  }

  // ------------------------------------------------------------------ stale ids

  lemma ClampedIds(a: nat, b: nat)
    requires a < b
    ensures ReservationId(Min(a, U64_MAX)) != ReservationId(Min(b, U64_MAX)) <==> a < U64_MAX
  {
    var x: nat, y: nat := Min(a, U64_MAX), Min(b, U64_MAX);
    if ReservationId(x) == ReservationId(y) {
      ReservationIdInjective(x, y);
    }
  }

  /** Two grants have different ids exactly when the first was made before the
      counter's last step. */
  lemma GrantPairIff(served: Served, h: History, i: nat, j: nat)
    requires h.Legal(served) && i < j < |h.effects| && h.effects[i].Grant? && h.effects[j].Grant?
    ensures h.effects[i].reservation.reservationId != h.effects[j].reservation.reservationId
            <==> !h.CounterSpent(i)
  {
    hide ReservationId, Bumps;
    GrantNumber(served, h, i);
    GrantNumber(served, h, j);
    CounterIsBumps(served, h, i);
    BumpsBetween(h.effects, i, j);
    ClampedIds(Bumps(h.effects[..i]) + 1, Bumps(h.effects[..j]) + 1);
  }

  /** With no bound, only the clamped id can be granted twice. */
  lemma OnlyTheClampRepeats(served: Served, h: History, i: nat, j: nat)
    requires h.Legal(served) && i < j < |h.effects| && h.effects[i].Grant? && h.effects[j].Grant?
    requires h.effects[i].reservation.reservationId != ReservationId(U64_MAX)
    ensures h.effects[i].reservation.reservationId != h.effects[j].reservation.reservationId
  {
    hide ReservationId, Bumps;
    GrantNumber(served, h, i);
    CounterIsBumps(served, h, i);
    GrantPairIff(served, h, i, j);
  }

  /** Exactly when all ids of a history are distinct: every grant but its last
      was made while the counter was more than one step below saturation. */
  lemma DistinctIff(served: Served, h: History)
    requires h.Legal(served)
    ensures GrantIdsDistinct(h.effects)
            <==> forall i, j :: 0 <= i < j < |h.effects| && h.effects[i].Grant? && h.effects[j].Grant? ==>
                   !h.CounterSpent(i)
  {
    forall i, j | 0 <= i < j < |h.effects| && h.effects[i].Grant? && h.effects[j].Grant?
      ensures h.effects[i].reservation.reservationId != h.effects[j].reservation.reservationId
              <==> !h.CounterSpent(i)
    {
      GrantPairIff(served, h, i, j);
    }
  }

  lemma DistinctGrants(served: Served, h: History)
    requires h.Legal(served) && Bumps(h.effects) <= U64_MAX
    ensures GrantIdsDistinct(h.effects)
  {
    forall i, j | 0 <= i < j < |h.effects| && h.effects[i].Grant? && h.effects[j].Grant?
      ensures !h.CounterSpent(i)
    {
      CounterIsBumps(served, h, i);
      BumpsBetween(h.effects, i, j);
      BumpsBetween(h.effects, j, |h.effects|);
      assert h.effects[..|h.effects|] == h.effects;
    }
    DistinctIff(served, h);
  }

  /** An issued number below the clamp that is not live never becomes live again. */
  lemma {:induction false} StaysDead(served: Served, h: History, i: nat, j: nat, number: nat)
    requires h.Legal(served) && i <= j <= |h.effects|
    requires number <= Bumps(h.effects[..i]) && number < U64_MAX
    requires Get(h.states[i].reservations, ReservationId(number)).None?
    ensures Get(h.states[j].reservations, ReservationId(number)).None?
  {
    if i < j {
      StaysDead(served, h, i, j - 1, number);
      StepView(served, h, j - 1, ReservationId(number));
      if h.effects[j - 1].Grant? {
        BumpsGrow(h.effects, i, j - 1);
        GrantNumberIsNew(served, h, j - 1, number);
      }
    }
  }

  /** Only the clamped id can be released twice. */
  lemma ReleasePair(served: Served, h: History, i: nat, j: nat)
    requires h.Legal(served) && i < j < |h.effects| && h.effects[i].Free? && h.effects[j].Free?
    requires h.effects[i].reservationId != ReservationId(U64_MAX)
    ensures h.effects[i].reservationId != h.effects[j].reservationId
  {
    var id := h.effects[i].reservationId;
    assert h.StepAt(i) && h.StepAt(j);
    var number := LiveNumber(served, h, i, id);
    StepView(served, h, i, id);
    BumpsGrow(h.effects, i, i + 1);
    StaysDead(served, h, i + 1, j, number);
  }

  ghost predicate ClampedIdReleasedOnce(effects: seq<Effect>) {
    forall i, j :: 0 <= i < j < |effects| && effects[i] == Free(ReservationId(U64_MAX)) ==>
      effects[j] != Free(ReservationId(U64_MAX))
  }

  /** Exactly when no id is released twice: the clamped id is not. */
  lemma ReleasedOnceIff(served: Served, h: History)
    requires h.Legal(served)
    ensures NoSecondRelease(h.effects) <==> ClampedIdReleasedOnce(h.effects)
  {
    forall i, j | 0 <= i < j < |h.effects| && h.effects[i].Free? && h.effects[j].Free?
      ensures h.effects[i].reservationId == h.effects[j].reservationId ==>
                h.effects[i].reservationId == ReservationId(U64_MAX)
    {
      if h.effects[i].reservationId != ReservationId(U64_MAX) {
        ReleasePair(served, h, i, j);
      }
    }
  }

  /** Within the counter no id at all can be released twice. */
  lemma ReleasedAgain(served: Served, h: History, i: nat, j: nat)
    requires h.Legal(served) && Bumps(h.effects) <= U64_MAX
    requires i < j < |h.effects| && h.effects[i].Free? && h.effects[j].Free?
    ensures h.effects[i].reservationId != h.effects[j].reservationId
  {
    hide ReservationId, Bumps;
    var id := h.effects[i].reservationId;
    var g := ReversesOneGrant(served, h, i);
    StepView(served, h, i, id);
    NoGrantBetween(served, h, i + 1, j, id, g);
    assert h.StepAt(j);
  }

  lemma ReleasedOnce(served: Served, h: History)
    requires h.Legal(served) && Bumps(h.effects) <= U64_MAX
    ensures NoSecondRelease(h.effects)
  {
    forall i, j | 0 <= i < j < |h.effects| && h.effects[i].Free? && h.effects[j].Free?
      ensures h.effects[i].reservationId != h.effects[j].reservationId
    {
      ReleasedAgain(served, h, i, j);
    }
  }

  /** Without another grant of its id, a released entry stays away. */
  lemma {:induction false} NoGrantBetween(served: Served, h: History, i: nat, j: nat, id: string, g: nat)
    requires h.Legal(served) && g < i <= j <= |h.effects|
    requires forall k :: 0 <= k < |h.effects| && k != g && h.effects[k].Grant? ==>
               h.effects[k].reservation.reservationId != id
    requires Get(h.states[i].reservations, id).None?
    ensures Get(h.states[j].reservations, id).None?
  {
    if i < j {
      NoGrantBetween(served, h, i, j - 1, id, g);
      StepView(served, h, j - 1, id);
    }
  }

  lemma {:induction false} LastGrantIndex(effects: seq<Effect>, id: string) returns (g: nat)
    requires LastGrant(effects, id).Some?
    ensures g < |effects| && effects[g] == Grant(LastGrant(effects, id).value)
    ensures LastGrant(effects, id).value.reservationId == id
  {
    var n := |effects| - 1;
    if effects[n].Grant? && effects[n].reservation.reservationId == id {
      g := n;
    } else {
      g := LastGrantIndex(effects[..n], id);
    }
  }

  /** A successful release of any id but the clamped one, and within the counter
      of any id, reverses exactly one grant: one earlier grant has its id, no
      other grant ever has, and the entry removed is that grant's record. */
  lemma ReversesOneGrant(served: Served, h: History, j: nat) returns (g: nat)
    requires h.Legal(served) && j < |h.effects| && h.effects[j].Free?
    requires h.effects[j].reservationId != ReservationId(U64_MAX) || Bumps(h.effects) <= U64_MAX
    ensures g < j && h.effects[g].Grant?
    ensures h.effects[g].reservation.reservationId == h.effects[j].reservationId
    ensures forall i :: 0 <= i < |h.effects| && i != g && h.effects[i].Grant? ==>
              h.effects[i].reservation.reservationId != h.effects[j].reservationId
    ensures Get(h.states[j].reservations, h.effects[j].reservationId) == Some(h.effects[g].reservation)
    ensures forall model :: LiveSlots(h.states[j + 1], model)
              == LiveSlots(h.states[j], model) - Share(h.effects[g].reservation, model)
  {
    var id := h.effects[j].reservationId;
    assert h.StepAt(j);
    LiveIsLastGrant(served, h, j, id);
    g := LastGrantIndex(h.effects[..j], id);
    if Bumps(h.effects) <= U64_MAX {
      DistinctGrants(served, h);
    }
    forall i | 0 <= i < |h.effects| && i != g && h.effects[i].Grant?
      ensures h.effects[i].reservation.reservationId != id
    {
      if id != ReservationId(U64_MAX) && h.effects[i].reservation.reservationId == id {
        OnlyTheClampRepeats(served, h, Min(i, g), Max(i, g));
      }
    }
    forall model
      ensures LiveSlots(h.states[j + 1], model)
              == LiveSlots(h.states[j], model) - Share(h.effects[g].reservation, model)
    {
      LedgerStep(served, h, j, model);
    }
  }

  // ---------------------------------------------------------------- grant order

  /** The number an id was issued for. */
  function IdNumber(id: string): nat {
    if |id| >= 5 && id[..5] == "resv-" && Decimal.IsDigits(id[5..]) then Decimal.Value(id[5..]) else 0
  }

  lemma IdNumberOf(n: nat)
    ensures IdNumber(ReservationId(n)) == n
  {
    ReservationIdExact(ReservationId(n), n);
  }

  /** The last listed reservation with an id. */
  function LastIn(reservations: seq<ModelReservation>, id: string): Option<ModelReservation> {
    if reservations == [] then None
    else if LastIn(reservations[1..], id).Some? then LastIn(reservations[1..], id)
    else if reservations[0].reservationId == id then Some(reservations[0])
    else None
  }

  lemma {:induction false} LastInSnoc(reservations: seq<ModelReservation>, r: ModelReservation, id: string)
    ensures LastIn(reservations + [r], id)
            == if r.reservationId == id then Some(r) else LastIn(reservations, id)
  {
    if reservations != [] {
      assert (reservations + [r])[1..] == reservations[1..] + [r];
      LastInSnoc(reservations[1..], r, id);
    }
  }

  lemma {:induction false} LastInWithout(reservations: seq<ModelReservation>, gone: string, id: string)
    ensures LastIn(Without(reservations, gone), id) == if id == gone then None else LastIn(reservations, id)
  {
    if reservations != [] {
      LastInWithout(reservations[1..], gone, id);
    }
  }

  /** The list kept in grant order has the same view as the map. */
  lemma {:induction false} ListView(served: Served, h: History, n: nat, id: string)
    requires h.Legal(served) && n <= |h.effects|
    ensures Get(h.states[n].reservations, id) == LastIn(LiveInGrantOrder(h.effects[..n]), id)
  {
    if n > 0 {
      ListView(served, h, n - 1, id);
      StepView(served, h, n - 1, id);
      Last(h.effects, n);
      var list := LiveInGrantOrder(h.effects[..n - 1]);
      match h.effects[n - 1]
      case Grant(r) => LastInSnoc(list, r, id);
      case Free(gone) => LastInWithout(list, gone, id);
      case _ =>
    }
  }

  /** Granted earlier, with a smaller number unless both have the clamped one. */
  predicate Earlier(r: ModelReservation, s: ModelReservation) {
    var (a, b) := (IdNumber(r.reservationId), IdNumber(s.reservationId));
    a <= b && (a == b ==> a == U64_MAX)
  }

  predicate Numbered(r: ModelReservation, issued: nat) {
    r.reservationId == ReservationId(IdNumber(r.reservationId)) && IdNumber(r.reservationId) <= issued
  }

  /** Every listed id is an issued number, and the numbers grow along the list. */
  predicate Growing(list: seq<ModelReservation>, issued: nat) {
    list == []
    || (Numbered(list[0], issued)
        && (forall r :: r in list[1..] ==> Earlier(list[0], r))
        && Growing(list[1..], issued))
  }

  lemma {:induction false} GrowingPairs(list: seq<ModelReservation>, issued: nat, p: nat, q: nat)
    requires Growing(list, issued) && p < q < |list|
    ensures Earlier(list[p], list[q])
  {
    hide Earlier, Numbered;
    if p > 0 {
      GrowingPairs(list[1..], issued, p - 1, q - 1);
    } else {
      assert list[q] == list[1..][q - 1];
    }
  }

  lemma {:induction false} GrowingAt(list: seq<ModelReservation>, issued: nat, p: nat)
    requires Growing(list, issued) && p < |list|
    ensures Numbered(list[p], issued)
  {
    hide Earlier, Numbered;
    if p > 0 {
      GrowingAt(list[1..], issued, p - 1);
    }
  }

  lemma {:induction false} GrowingSnoc(list: seq<ModelReservation>, issued: nat, r: ModelReservation, number: nat)
    requires Growing(list, issued) && issued <= number && r.reservationId == ReservationId(number)
    requires issued == number ==> number == U64_MAX
    ensures Growing(list + [r], number)
  {
    hide ReservationId, IdNumber;
    IdNumberOf(number);
    if list != [] {
      assert (list + [r])[1..] == list[1..] + [r];
      GrowingSnoc(list[1..], issued, r, number);
    }
  }

  lemma {:induction false} WithoutSubset(list: seq<ModelReservation>, id: string)
    ensures forall r :: r in Without(list, id) ==> r in list
  {
    if list != [] {
      WithoutSubset(list[1..], id);
    }
  }

  lemma {:induction false} GrowingWithout(list: seq<ModelReservation>, issued: nat, id: string)
    requires Growing(list, issued)
    ensures Growing(Without(list, id), issued)
  {
    if list != [] {
      GrowingWithout(list[1..], issued, id);
      WithoutSubset(list[1..], id);
    }
  }

  lemma {:induction false} GrowingMore(list: seq<ModelReservation>, issued: nat, more: nat)
    requires Growing(list, issued) && issued <= more
    ensures Growing(list, more)
  {
    if list != [] {
      GrowingMore(list[1..], issued, more);
    }
  }

  lemma {:induction false} ListGrows(served: Served, h: History, n: nat)
    requires h.Legal(served) && n <= |h.effects|
    ensures Growing(LiveInGrantOrder(h.effects[..n]), h.states[n].nextReservationId)
  {
    hide Earlier, Numbered, IdNumber, Inv;
    if n > 0 {
      ListGrows(served, h, n - 1);
      assert h.StepAt(n - 1);
      Last(h.effects, n);
      var list := LiveInGrantOrder(h.effects[..n - 1]);
      var before, after := h.states[n - 1].nextReservationId, h.states[n].nextReservationId;
      match h.effects[n - 1]
      case Grant(r) => GrowingSnoc(list, before, r, after);
      case Free(id) => GrowingWithout(list, before, id);
      case Burn => GrowingMore(list, before, after);
      case Quiet =>
    }
  }

  /** The map with the listed reservations under their own ids, in list order. */
  function Keyed(list: seq<ModelReservation>): (m: seq<Entry<ModelReservation>>)
    ensures |m| == |list|
    ensures forall i :: 0 <= i < |m| ==> m[i] == Entry(list[i].reservationId, list[i])
  {
    if list == [] then [] else [Entry(list[0].reservationId, list[0])] + Keyed(list[1..])
  }

  lemma {:induction false} KeyedView(list: seq<ModelReservation>, id: string)
    requires Sorted(Keyed(list))
    ensures Get(Keyed(list), id) == LastIn(list, id)
  {
    if list != [] {
      HeadNotInTail(Keyed(list));
      KeyedView(list[1..], id);
    }
  }

  /** The map lists in grant order iff the listed ids increase as strings. */
  lemma ListIffSorted(served: Served, h: History, n: nat)
    requires h.Legal(served) && n <= |h.effects|
    ensures Reservations(h.states[n]) == LiveInGrantOrder(h.effects[..n])
            <==> Sorted(Keyed(LiveInGrantOrder(h.effects[..n])))
  {
    var list := LiveInGrantOrder(h.effects[..n]);
    var live := h.states[n].reservations;
    assert h.InvAt(served, n);
    if Sorted(Keyed(list)) {
      forall id
        ensures Get(live, id) == Get(Keyed(list), id)
      {
        ListView(served, h, n, id);
        KeyedView(list, id);
      }
      Canonical(live, Keyed(list));
      assert Reservations(h.states[n]) == list;
    }
    if Reservations(h.states[n]) == list {
      forall i | 0 <= i < |live|
        ensures live[i] == Keyed(list)[i]
      {
        GetAt(live, i);
      }
      assert live == Keyed(list);
    }
  }

  ghost predicate NumbersSortAsStrings(list: seq<ModelReservation>) {
    forall p, q :: 0 <= p < q < |list| ==>
      Decimal.SortsBefore(IdNumber(list[p].reservationId), IdNumber(list[q].reservationId))
  }

  /** Exactly when the id-sorted list is the list in grant order, for every
      history: of any two live numbers the earlier one is smaller and, if it is
      also narrower, at most the later one's leading digits. */
  lemma GrantOrderIff(served: Served, h: History, n: nat)
    requires h.Legal(served) && n <= |h.effects|
    ensures Reservations(h.states[n]) == LiveInGrantOrder(h.effects[..n])
            <==> NumbersSortAsStrings(LiveInGrantOrder(h.effects[..n]))
  {
    var list := LiveInGrantOrder(h.effects[..n]);
    ListGrows(served, h, n);
    forall p, q | 0 <= p < q < |list|
      ensures Less(list[p].reservationId, list[q].reservationId)
              <==> Decimal.SortsBefore(IdNumber(list[p].reservationId), IdNumber(list[q].reservationId))
    {
      var (a, b) := (IdNumber(list[p].reservationId), IdNumber(list[q].reservationId));
      GrowingPairs(list, h.states[n].nextReservationId, p, q);
      GrowingAt(list, h.states[n].nextReservationId, p);
      GrowingAt(list, h.states[n].nextReservationId, q);
      CommonPrefix("resv-", Decimal.Padded(a), Decimal.Padded(b));
      Decimal.SortsBeforeExact(a, b);
    }
    if Sorted(Keyed(list)) {
      forall p, q | 0 <= p < q < |list|
        ensures Less(list[p].reservationId, list[q].reservationId)
      {
        SortedPairs(Keyed(list), p, q);
      }
    }
    if NumbersSortAsStrings(list) {
      SortedFromPairs(Keyed(list));
    }
    ListIffSorted(served, h, n);
  }

  /** Up to 999,999 numbers, the id-sorted list is the list in grant order. */
  lemma ListIsGrantOrder(served: Served, h: History, n: nat)
    requires h.Legal(served) && n <= |h.effects| && Bumps(h.effects[..n]) <= 999_999
    ensures Reservations(h.states[n]) == LiveInGrantOrder(h.effects[..n])
  {
    var list := LiveInGrantOrder(h.effects[..n]);
    ListGrows(served, h, n);
    CounterIsBumps(served, h, n);
    forall p, q | 0 <= p < q < |list|
      ensures Decimal.SortsBefore(IdNumber(list[p].reservationId), IdNumber(list[q].reservationId))
    {
      GrowingPairs(list, h.states[n].nextReservationId, p, q);
      GrowingAt(list, h.states[n].nextReservationId, q);
      Decimal.PaddedWidth(IdNumber(list[p].reservationId));
      Decimal.PaddedWidth(IdNumber(list[q].reservationId));
    }
    GrantOrderIff(served, h, n);
  }
}
