/** What the registry holds after any history of deliveries, told from the
    history alone: the accepted announcements, grouped by sender. */
module MeshLaws {
  import opened Wrappers
  import opened MachineInts
  import opened Lexicographic
  import opened OrderedMap
  import opened HexCodec
  import opened Mesh

  // ------------------------------------------------------------------ admission

  const CHECKS: nat := 9

  /** The nine admission checks, each on its own; a check about a part that is
      missing does not fail. */
  predicate Passes<C>(node: Node<C>, delivery: Delivery<C>, check: nat)
    requires check < CHECKS
  {
    var message := delivery.message;
    var cap := message.payload;
    if check == 0 then message.sender.Some?
    else if check == 1 then message.verified
    else if check == 2 then message.sender.Some? ==> EncodeAgentId(message.sender.value) != node.localAgentId
    else if check == 3 then cap.Some?
    else if check == 4 then cap.Some? ==> cap.value.protocolVersion == 1
    else if check == 5 then cap.Some? ==> cap.value.policy.meshName == node.mesh.name
    else if check == 6 then
      cap.Some? && message.sender.Some? ==> cap.value.identity.agentId == EncodeAgentId(message.sender.value)
    else if check == 7 then cap.Some? ==> ParseMachineIdHex(cap.value.identity.machineId).Success?
    else Evaluated(node, delivery).Some? ==> Suffices(node.mesh, Evaluated(node, delivery).value)
  }

  /** The decisions a mesh lets in: acceptance, and acceptance with a flag where
      neither mesh setting asks for more. */
  predicate Suffices(mesh: MeshConfig, decision: TrustDecision) {
    || decision == Accept
    || (decision == AcceptWithFlag && !(mesh.trustedFriendsOnly || mesh.requireTrustedContacts))
  }

  /** The evaluator's decision on the parsed identities, where there are any. */
  function Evaluated<C>(node: Node<C>, delivery: Delivery<C>): Option<TrustDecision> {
    var message := delivery.message;
    if message.sender.Some? && message.payload.Some? then
      match ParseMachineIdHex(message.payload.value.identity.machineId)
      case Success(machine) => Some(node.evaluate(delivery.contacts, message.sender.value, machine))
      case Failure(_) => None
    else None
  }

  function Refusal<C>(node: Node<C>, delivery: Delivery<C>, check: nat): CapabilityDisposition
    requires check < CHECKS && !Passes(node, delivery, check)
  {
    [RejectedMissingSender, RejectedUnverifiedSender, IgnoredSelf, RejectedInvalidPayload,
     RejectedUnsupportedProtocol, RejectedWrongMesh, RejectedSenderMismatch, RejectedInvalidMachineId,
     RejectedTrust(if check == 8 then Evaluated(node, delivery).value else Unknown)][check]
  }

  /** A message is admitted iff it passes all nine checks, with the announced
      capability and the evaluator's decision; otherwise the first check that
      fails names the refusal. */
  lemma FirstFailedCheckDecides<C>(node: Node<C>, delivery: Delivery<C>)
    ensures Admit(node, delivery).Admitted? <==> forall check :: 0 <= check < CHECKS ==> Passes(node, delivery, check)
    ensures Admit(node, delivery).Admitted? ==>
              && delivery.message.payload == Some(Admit(node, delivery).capability)
              && Evaluated(node, delivery) == Some(Admit(node, delivery).decision)
    ensures forall check :: 0 <= check < CHECKS && !Passes(node, delivery, check)
              && (forall earlier :: 0 <= earlier < check ==> Passes(node, delivery, earlier))
              ==> Admit(node, delivery) == Refused(Refusal(node, delivery, check))
  {
    // The quantifiers above range over check numbers: naming each check once
    // makes the verifier instantiate them there.
    var checks := [
      Passes(node, delivery, 0), Passes(node, delivery, 1), Passes(node, delivery, 2),
      Passes(node, delivery, 3), Passes(node, delivery, 4), Passes(node, delivery, 5),
      Passes(node, delivery, 6), Passes(node, delivery, 7), Passes(node, delivery, 8)];
  }

  /** A message that passes the first eight checks is refused for want of trust
      exactly on these decisions, and admitted on the others. */
  lemma TrustDecides<C>(node: Node<C>, delivery: Delivery<C>)
    requires forall check :: 0 <= check < 8 ==> Passes(node, delivery, check)
    ensures Evaluated(node, delivery).Some?
    ensures
      var decision := Evaluated(node, delivery).value;
      var flagged := node.mesh.trustedFriendsOnly || node.mesh.requireTrustedContacts;
      var insufficient :=
        || decision in {RejectMachineMismatch, RejectBlocked, Unknown}
        || (decision == AcceptWithFlag && flagged);
      && (Admit(node, delivery) == Refused(RejectedTrust(decision)) <==> insufficient)
      && (Admit(node, delivery) == Admitted(delivery.message.payload.value, decision) <==> !insufficient)
  {
    FirstFailedCheckDecides(node, delivery);
    assert Passes(node, delivery, 0) && Passes(node, delivery, 3) && Passes(node, delivery, 7);
  }

  /** Is this an accepted announcement of the sender with this hex id? */
  predicate AcceptedFrom<C>(node: Node<C>, delivery: Delivery<C>, k: string) {
    Admit(node, delivery).Admitted? && Admit(node, delivery).capability.identity.agentId == k
  }

  /** A sender's accepted announcements, in order. */
  function AcceptedLog<C>(node: Node<C>, history: seq<Delivery<C>>, k: string): seq<Delivery<C>> {
    if history == [] then []
    else
      var last := history[|history| - 1];
      AcceptedLog(node, history[..|history| - 1], k) + if AcceptedFrom(node, last, k) then [last] else []
  }

  /** The record a sender's accepted announcements add up to: the last one's
      content and time, the first one's time as first seen. */
  function Summary<C>(node: Node<C>, accepted: seq<Delivery<C>>): Option<PeerCapabilityRecord> {
    if accepted == [] || Admit(node, accepted[|accepted| - 1]).Refused? then None
    else
      var (first, last) := (accepted[0], accepted[|accepted| - 1]);
      Some(PeerCapabilityRecord(Admit(node, last).capability, Admit(node, last).decision, first.now, last.now))
  }

  function Registry<C>(node: Node<C>, history: seq<Delivery<C>>): seq<Entry<PeerCapabilityRecord>> {
    After(node, [], history)
  }

  // ----------------------------------------------------------------- refinement

  lemma {:induction false} AcceptedLogIsAccepted<C>(node: Node<C>, history: seq<Delivery<C>>, k: string)
    ensures forall d :: d in AcceptedLog(node, history, k) ==> d in history && AcceptedFrom(node, d, k)
  {
    if history != [] {
      AcceptedLogIsAccepted(node, history[..|history| - 1], k);
    }
  }

  lemma {:induction false} AcceptedLogNonempty<C>(node: Node<C>, history: seq<Delivery<C>>, k: string)
    ensures AcceptedLog(node, history, k) != []
            <==> exists i :: 0 <= i < |history| && AcceptedFrom(node, history[i], k)
  {
    if history != [] {
      var n := |history| - 1;
      AcceptedLogNonempty(node, history[..n], k);
      assert AcceptedFrom(node, history[n], k) || AcceptedLog(node, history, k) == AcceptedLog(node, history[..n], k);
    }
  }

  /** The registry refines the log: for every history and every key it stores
      exactly the summary of that sender's accepted announcements. */
  lemma {:induction false} RegistryRefinesLog<C>(node: Node<C>, history: seq<Delivery<C>>)
    ensures Sorted(Registry(node, history))
    ensures forall k :: Get(Registry(node, history), k) == Summary(node, AcceptedLog(node, history, k))
  {
    if history != [] {
      var n := |history| - 1;
      RegistryRefinesLog(node, history[..n]);
      forall k
        ensures Get(Registry(node, history), k) == Summary(node, AcceptedLog(node, history, k))
      {
        RefinementStep(node, history, k);
      }
      SortedStep(node, Registry(node, history[..n]), history[n]);
    }
  }

  lemma SortedStep<C>(node: Node<C>, peers: seq<Entry<PeerCapabilityRecord>>, delivery: Delivery<C>)
    requires Sorted(peers)
    ensures Sorted(Apply(node, peers, delivery).0)
  {
    match Admit(node, delivery)
    case Refused(_) =>
    case Admitted(capability, decision) =>
      var peerId := capability.identity.agentId;
      forall r: PeerCapabilityRecord
        ensures Sorted(Put(peers, peerId, r))
      {
        PutSorted(peers, peerId, r);
      }
  }

  lemma RefinementStep<C>(node: Node<C>, history: seq<Delivery<C>>, k: string)
    requires history != []
    requires
      var init := history[..|history| - 1];
      Get(Registry(node, init), k) == Summary(node, AcceptedLog(node, init, k))
    ensures Get(Registry(node, history), k) == Summary(node, AcceptedLog(node, history, k))
  {
    hide Admit;
    var n := |history| - 1;
    var peers, last := Registry(node, history[..n]), history[n];
    var log := AcceptedLog(node, history[..n], k);
    LogHasSummary(node, history[..n], k);
    match Admit(node, last)
    case Refused(_) =>
    case Admitted(capability, decision) =>
      UpsertView(peers, capability, decision, last.now, k);
      if capability.identity.agentId == k {
        assert AcceptedLog(node, history, k) == log + [last];
        assert (log + [last])[0] == if log == [] then last else log[0];
      }
  }

  lemma {:induction false} LogHasSummary<C>(node: Node<C>, history: seq<Delivery<C>>, k: string)
    ensures Summary(node, AcceptedLog(node, history, k)).Some? <==> AcceptedLog(node, history, k) != []
  {
    var log := AcceptedLog(node, history, k);
    AcceptedLogIsAccepted(node, history, k);
    if log != [] {
      assert log[|log| - 1] in log;
    }
  }

  lemma UpsertView(peers: seq<Entry<PeerCapabilityRecord>>, capability: CapabilityAnnouncement,
                   decision: TrustDecision, now: u64, k: string)
    ensures
      var peerId := capability.identity.agentId;
      Get(Upsert(peers, capability, decision, now).0, k)
      == if k != peerId then Get(peers, k)
         else Some(PeerCapabilityRecord(
                capability, decision,
                if Get(peers, k).Some? then Get(peers, k).value.firstSeenUnixSecs else now, now))
  {
    var peerId := capability.identity.agentId;
    var first := if Get(peers, peerId).Some? then Get(peers, peerId).value.firstSeenUnixSecs else now;
    GetPut(peers, peerId, PeerCapabilityRecord(capability, decision, first, now), k);
  }

  /** A peer is present iff one of its announcements was accepted. */
  lemma PresentIffAccepted<C>(node: Node<C>, history: seq<Delivery<C>>, k: string)
    ensures Get(Registry(node, history), k).Some?
            <==> exists i :: 0 <= i < |history| && AcceptedFrom(node, history[i], k)
  {
    RegistryRefinesLog(node, history);
    AcceptedLogNonempty(node, history, k);
    LogHasSummary(node, history, k);
  }

  // ------------------------------------------------------------------ invariant

  ghost predicate TrustedRecord<C>(node: Node<C>, k: string, r: PeerCapabilityRecord) {
    && r.capability.identity.agentId == k
    && |k| == 64 && IsLowerHex(k)
    && k != node.localAgentId
    && r.capability.protocolVersion == 1
    && r.capability.policy.meshName == node.mesh.name
    && ParseMachineIdHex(r.capability.identity.machineId).Success?
    && (r.trustDecision == Accept
        || (r.trustDecision == AcceptWithFlag
            && !node.mesh.trustedFriendsOnly && !node.mesh.requireTrustedContacts))
  }

  lemma AcceptedIsTrusted<C>(node: Node<C>, delivery: Delivery<C>, k: string, first: u64, last: u64)
    requires AcceptedFrom(node, delivery, k)
    ensures
      var admission := Admit(node, delivery);
      TrustedRecord(node, k, PeerCapabilityRecord(admission.capability, admission.decision, first, last))
  {
    EncodeShape(delivery.message.sender.value);
  }

  ghost predicate ClockNeverDecreases<C>(history: seq<Delivery<C>>) {
    forall i, j :: 0 <= i < j < |history| ==> history[i].now <= history[j].now
  }

  lemma {:induction false} AcceptedInClockOrder<C>(node: Node<C>, history: seq<Delivery<C>>, k: string)
    requires ClockNeverDecreases(history)
    ensures
      var log := AcceptedLog(node, history, k);
      log != [] ==> log[0].now <= log[|log| - 1].now
  {
    if history != [] {
      var n := |history| - 1;
      AcceptedInClockOrder(node, history[..n], k);
      AcceptedLogIsAccepted(node, history[..n], k);
      var log := AcceptedLog(node, history[..n], k);
      if log != [] {
        assert log[0] in history[..n];
      }
    }
  }

  /** After any history, every stored record is one the mesh trusts, under its
      own key; and if clock readings never decrease, it was first seen no later
      than it was last seen. */
  lemma EveryRecordTrusted<C>(node: Node<C>, history: seq<Delivery<C>>, k: string)
    requires Get(Registry(node, history), k).Some?
    ensures TrustedRecord(node, k, Get(Registry(node, history), k).value)
    ensures ClockNeverDecreases(history) ==>
              var r := Get(Registry(node, history), k).value;
              r.firstSeenUnixSecs <= r.lastSeenUnixSecs
  {
    RegistryRefinesLog(node, history);
    AcceptedLogIsAccepted(node, history, k);
    var log := AcceptedLog(node, history, k);
    assert log[|log| - 1] in log;
    AcceptedIsTrusted(node, log[|log| - 1], k, log[0].now, log[|log| - 1].now);
    if ClockNeverDecreases(history) {
      AcceptedInClockOrder(node, history, k);
    }
  }

  /** A sender's record, if it has one, listed in one place and no other. */
  ghost predicate ListedOnce(snapshot: seq<PeerCapabilityRecord>, k: string, r: PeerCapabilityRecord) {
    exists i ::
      && 0 <= i < |snapshot| && snapshot[i] == r
      && forall j :: 0 <= j < |snapshot| && snapshot[j].capability.identity.agentId == k ==> j == i
  }

  /** The snapshot of a registry that has seen a history lists the summary of
      each sender with an accepted announcement, each once, and nothing else. */
  lemma SnapshotExact<C>(node: Node<C>, history: seq<Delivery<C>>, registry: TrustedPeerRegistry)
    requires registry.peers == Registry(node, history)
    ensures forall k :: AcceptedLog(node, history, k) != [] ==>
              && Summary(node, AcceptedLog(node, history, k)).Some?
              && ListedOnce(registry.Snapshot(), k, Summary(node, AcceptedLog(node, history, k)).value)
    ensures forall r :: r in registry.Snapshot() ==>
              var k := r.capability.identity.agentId;
              AcceptedLog(node, history, k) != [] && Summary(node, AcceptedLog(node, history, k)) == Some(r)
  {
    var peers, snapshot := registry.peers, registry.Snapshot();
    RegistryRefinesLog(node, history);
    forall i | 0 <= i < |peers|
      ensures snapshot[i].capability.identity.agentId == peers[i].key
      ensures Get(peers, peers[i].key) == Some(snapshot[i]) && AcceptedLog(node, history, peers[i].key) != []
    {
      GetAt(peers, i);
      LogHasSummary(node, history, peers[i].key);
      EveryRecordTrusted(node, history, peers[i].key);
    }
    forall k | AcceptedLog(node, history, k) != []
      ensures Summary(node, AcceptedLog(node, history, k)).Some?
      ensures ListedOnce(snapshot, k, Summary(node, AcceptedLog(node, history, k)).value)
    {
      LogHasSummary(node, history, k);
      var i := GetFrom(peers, k);
      OneKey(peers, i);
      assert snapshot[i] == Get(peers, k).value;
    }
  }

  lemma OneKey<V>(m: seq<Entry<V>>, i: nat)
    requires Sorted(m) && i < |m|
    ensures forall j :: 0 <= j < |m| && m[j].key == m[i].key ==> j == i
  {
    forall j | 0 <= j < |m| && m[j].key == m[i].key
      ensures j == i
    {
      if j < i {
        SortedPairs(m, j, i);
        Asymmetric(m[j].key, m[i].key);
      } else if i < j {
        SortedPairs(m, i, j);
        Asymmetric(m[i].key, m[j].key);
      }
    }
  }

  /** The snapshot of a registry that has seen a history is in the order of the
      peers' raw 32-byte identifiers. */
  lemma SnapshotInIdentityOrder<C>(
    node: Node<C>, history: seq<Delivery<C>>, registry: TrustedPeerRegistry, i: nat, j: nat)
    requires registry.peers == Registry(node, history)
    requires i < j < |registry.Snapshot()|
    ensures
      var snapshot := registry.Snapshot();
      var (a, b) := (ParseAgentIdHex(snapshot[i].capability.identity.agentId),
                     ParseAgentIdHex(snapshot[j].capability.identity.agentId));
      a.Success? && b.Success? && BytesLess(a.value, b.value)
  {
    var peers := Registry(node, history);
    RegistryRefinesLog(node, history);
    SortedPairs(peers, i, j);
    var a := RawId(node, history, i);
    var b := RawId(node, history, j);
    EncodeOrder(a, b);
    ParseOfEncode(a);
    ParseOfEncode(b);
  }

  lemma RawId<C>(node: Node<C>, history: seq<Delivery<C>>, i: nat) returns (id: Id)
    requires Sorted(Registry(node, history)) && i < |Registry(node, history)|
    ensures Registry(node, history)[i].key == EncodeAgentId(id)
    ensures Registry(node, history)[i].value.capability.identity.agentId == EncodeAgentId(id)
  {
    var k := Registry(node, history)[i].key;
    GetAt(Registry(node, history), i);
    EveryRecordTrusted(node, history, k);
    PresentIffAccepted(node, history, k);
    var n :| 0 <= n < |history| && AcceptedFrom(node, history[n], k);
    id := history[n].message.sender.value;
  }

  // --------------------------------------------------------------- dispositions

  /** A sender's first accepted announcement is answered AcceptedNewPeer and
      every later one UpdatedPeer; every other message is refused. */
  lemma DispositionFromLog<C>(node: Node<C>, history: seq<Delivery<C>>, i: nat)
    requires i < |history|
    ensures
      match Admit(node, history[i])
      case Refused(disposition) => DispositionAt(node, [], history, i) == disposition
      case Admitted(capability, _) =>
        DispositionAt(node, [], history, i)
        == if exists j :: 0 <= j < i && AcceptedFrom(node, history[j], capability.identity.agentId)
           then UpdatedPeer else AcceptedNewPeer
  {
    if Admit(node, history[i]).Admitted? {
      var k := Admit(node, history[i]).capability.identity.agentId;
      PresentIffAccepted(node, history[..i], k);
      assert forall j :: 0 <= j < i ==> history[..i][j] == history[j];
    }
  }

  function CountNew<C>(node: Node<C>, history: seq<Delivery<C>>): nat {
    if history == [] then 0
    else
      var n := |history| - 1;
      CountNew(node, history[..n]) + if DispositionAt(node, [], history, n) == AcceptedNewPeer then 1 else 0
  }

  lemma {:induction false} SizeCountsNew<C>(node: Node<C>, history: seq<Delivery<C>>)
    ensures |Registry(node, history)| == CountNew(node, history)
  {
    if history != [] {
      var n := |history| - 1;
      var peers, last := Registry(node, history[..n]), history[n];
      SizeCountsNew(node, history[..n]);
      RegistryRefinesLog(node, history[..n]);
      match Admit(node, last)
      case Refused(d) => RefusalIsNotNew(node, last);
      case Admitted(capability, decision) => UpsertSize(peers, capability, decision, last.now);
    }
  }

  /** A registry that has seen a history holds one peer per AcceptedNewPeer
      answer, lists as many, and is empty iff every message was refused. */
  lemma LenCountsNewPeers<C>(node: Node<C>, history: seq<Delivery<C>>, registry: TrustedPeerRegistry)
    requires registry.peers == Registry(node, history)
    ensures registry.Len() == |registry.Snapshot()| == CountNew(node, history)
    ensures registry.IsEmpty() <==> forall i :: 0 <= i < |history| ==> Admit(node, history[i]).Refused?
  {
    SizeCountsNew(node, history);
    if registry.IsEmpty() {
      forall i | 0 <= i < |history|
        ensures Admit(node, history[i]).Refused?
      {
        if Admit(node, history[i]).Admitted? {
          PresentIffAccepted(node, history, Admit(node, history[i]).capability.identity.agentId);
        }
      }
    } else {
      var k := registry.peers[0].key;
      assert Get(registry.peers, k).Some?;
      PresentIffAccepted(node, history, k);
    }
  }

  lemma RefusalIsNotNew<C>(node: Node<C>, delivery: Delivery<C>)
    requires Admit(node, delivery).Refused?
    ensures Admit(node, delivery).disposition != AcceptedNewPeer && Admit(node, delivery).disposition != UpdatedPeer
  {
  }

  lemma UpsertSize(peers: seq<Entry<PeerCapabilityRecord>>, capability: CapabilityAnnouncement,
                   decision: TrustDecision, now: u64)
    requires Sorted(peers)
    ensures
      var (after, disposition) := Upsert(peers, capability, decision, now);
      |after| == |peers| + if disposition == AcceptedNewPeer then 1 else 0
  {
    var peerId := capability.identity.agentId;
    var first := if Get(peers, peerId).Some? then Get(peers, peerId).value.firstSeenUnixSecs else now;
    PutSize(peers, peerId, PeerCapabilityRecord(capability, decision, first, now));
  }

  // --------------------------------------------------------- what does not matter

  /** Histories in which every sender's accepted announcements agree, whatever
      their interleaving and whatever was refused, build the same registry. */
  lemma OnlySenderOrderMatters<C>(node: Node<C>, a: seq<Delivery<C>>, b: seq<Delivery<C>>)
    requires forall k :: AcceptedLog(node, a, k) == AcceptedLog(node, b, k)
    ensures Registry(node, a) == Registry(node, b)
  {
    RegistryRefinesLog(node, a);
    RegistryRefinesLog(node, b);
    forall k
      ensures Get(Registry(node, a), k) == Get(Registry(node, b), k)
    {
      assert AcceptedLog(node, a, k) == AcceptedLog(node, b, k);
    }
    Canonical(Registry(node, a), Registry(node, b));
  }

  lemma {:induction false} AcceptedLogOfConcat<C>(node: Node<C>, a: seq<Delivery<C>>, b: seq<Delivery<C>>, k: string)
    ensures AcceptedLog(node, a + b, k) == AcceptedLog(node, a, k) + AcceptedLog(node, b, k)
  {
    if b == [] {
      assert a + b == a;
    } else {
      var n := |b| - 1;
      assert (a + b)[..|a + b| - 1] == a + b[..n];
      AcceptedLogOfConcat(node, a, b[..n], k);
    }
  }

  /** The history without the messages that were refused. */
  function WithoutRefused<C>(node: Node<C>, history: seq<Delivery<C>>): seq<Delivery<C>> {
    if history == [] then []
    else
      var last := history[|history| - 1];
      WithoutRefused(node, history[..|history| - 1]) + if Admit(node, last).Admitted? then [last] else []
  }

  lemma {:induction false} RefusedNotInLog<C>(node: Node<C>, history: seq<Delivery<C>>, k: string)
    ensures AcceptedLog(node, WithoutRefused(node, history), k) == AcceptedLog(node, history, k)
  {
    if history != [] {
      var init, last := history[..|history| - 1], history[|history| - 1];
      RefusedNotInLog(node, init, k);
      if Admit(node, last).Admitted? {
        AcceptedLogOfConcat(node, WithoutRefused(node, init), [last], k);
        AcceptedLogOfConcat(node, init, [last], k);
        assert history == init + [last];
      } else {
        assert WithoutRefused(node, history) == WithoutRefused(node, init);
      }
    }
  }

  /** Deleting every refused message leaves the registry as it is. */
  lemma RefusedDoNotMatter<C>(node: Node<C>, history: seq<Delivery<C>>)
    ensures Registry(node, WithoutRefused(node, history)) == Registry(node, history)
  {
    forall k
      ensures AcceptedLog(node, WithoutRefused(node, history), k) == AcceptedLog(node, history, k)
    {
      RefusedNotInLog(node, history, k);
    }
    OnlySenderOrderMatters(node, WithoutRefused(node, history), history);
  }

  lemma SwapInLog<C>(node: Node<C>, x: Delivery<C>, y: Delivery<C>, k: string)
    requires !(AcceptedFrom(node, x, k) && AcceptedFrom(node, y, k))
    ensures AcceptedLog(node, [x] + [y], k) == AcceptedLog(node, [y] + [x], k)
  {
  }

  /** Adjacent messages of different senders commute, each keeping its own
      contacts and clock. */
  lemma DifferentSendersCommute<C>(node: Node<C>, before: seq<Delivery<C>>, x: Delivery<C>, y: Delivery<C>,
                                   after: seq<Delivery<C>>)
    requires x.message.sender != y.message.sender
    ensures Registry(node, before + ([x] + [y]) + after) == Registry(node, before + ([y] + [x]) + after)
  {
    forall k
      ensures AcceptedLog(node, before + ([x] + [y]) + after, k) == AcceptedLog(node, before + ([y] + [x]) + after, k)
    {
      if AcceptedFrom(node, x, k) && AcceptedFrom(node, y, k) {
        EncodeInjective(x.message.sender.value, y.message.sender.value);
      } else {
        SwapInLog(node, x, y, k);
        AcceptedLogOfConcat(node, before + ([x] + [y]), after, k);
        AcceptedLogOfConcat(node, before + ([y] + [x]), after, k);
        AcceptedLogOfConcat(node, before, [x] + [y], k);
        AcceptedLogOfConcat(node, before, [y] + [x], k);
      }
    }
    OnlySenderOrderMatters(node, before + ([x] + [y]) + after, before + ([y] + [x]) + after);
  }
}
