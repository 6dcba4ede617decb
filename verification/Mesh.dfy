/** src/mesh.rs: the registry of trusted peers and the admission of capability
    announcements that arrive by gossip. */
module Mesh {
  import opened Wrappers
  import opened MachineInts
  import opened OrderedMap
  import opened HexCodec

  const PROTOCOL_VERSION: u32 := 1

  datatype TrustDecision = Accept | AcceptWithFlag | RejectMachineMismatch | RejectBlocked | Unknown

  datatype AgentIdentity = AgentIdentity(machineId: string, agentId: string, userId: Option<string>)

  datatype HardwareProfile = HardwareProfile(
    hostname: Option<string>,
    cpuBrand: string,
    logicalCores: nat,
    totalMemoryBytes: u64,
    availableMemoryBytes: u64)

  datatype TrustedMeshPolicy = TrustedMeshPolicy(
    meshName: string,
    trustedFriendsOnly: bool,
    requireTrustedContacts: bool,
    preferUserIdentity: bool)

  datatype CapabilityAnnouncement = CapabilityAnnouncement(
    protocolVersion: u32,
    identity: AgentIdentity,
    hardware: HardwareProfile,
    policy: TrustedMeshPolicy,
    availableModels: seq<string>,
    observedAtUnixSecs: u64)

  datatype PeerCapabilityRecord = PeerCapabilityRecord(
    capability: CapabilityAnnouncement,
    trustDecision: TrustDecision,
    firstSeenUnixSecs: u64,
    lastSeenUnixSecs: u64)

  datatype CapabilityDisposition =
    | AcceptedNewPeer
    | UpdatedPeer
    | IgnoredSelf
    | RejectedMissingSender
    | RejectedUnverifiedSender
    | RejectedInvalidPayload
    | RejectedUnsupportedProtocol
    | RejectedWrongMesh
    | RejectedSenderMismatch
    | RejectedInvalidMachineId
    | RejectedTrust(decision: TrustDecision)

  /** `payload` is what decoding the message's bytes yields, if anything. */
  datatype PubSubMessage = PubSubMessage(sender: Option<Id>, verified: bool, payload: Option<CapabilityAnnouncement>)

  datatype MeshConfig = MeshConfig(name: string, trustedFriendsOnly: bool, requireTrustedContacts: bool)

  /** What stays fixed while a node runs. `evaluate` is x0x's trust evaluator:
      some function of the contact store, the agent and the machine. */
  datatype Node<!C> = Node(mesh: MeshConfig, localAgentId: string, evaluate: (C, Id, Id) -> TrustDecision)

  /** A message with the contact store and the clock it meets. */
  datatype Delivery<C> = Delivery(contacts: C, now: u64, message: PubSubMessage)

  datatype Admission =
    | Admitted(capability: CapabilityAnnouncement, decision: TrustDecision)
    | Refused(disposition: CapabilityDisposition)

  predicate AllowsPeer(mesh: MeshConfig, decision: TrustDecision) {
    match decision
    case Accept => true
    case AcceptWithFlag => !mesh.trustedFriendsOnly && !mesh.requireTrustedContacts
    case _ => false
  }

  /** The checks of `apply_message`, none of which looks at the registry. */
  function Admit<C>(node: Node<C>, delivery: Delivery<C>): Admission {
    var message := delivery.message;
    if message.sender.None? then Refused(RejectedMissingSender)
    else if !message.verified then Refused(RejectedUnverifiedSender)
    else
      var sender := message.sender.value;
      var senderHex := EncodeAgentId(sender);
      if senderHex == node.localAgentId then Refused(IgnoredSelf)
      else if message.payload.None? then Refused(RejectedInvalidPayload)
      else
        var capability := message.payload.value;
        if capability.protocolVersion != PROTOCOL_VERSION then Refused(RejectedUnsupportedProtocol)
        else if capability.policy.meshName != node.mesh.name then Refused(RejectedWrongMesh)
        else if capability.identity.agentId != senderHex then Refused(RejectedSenderMismatch)
        else
          match ParseMachineIdHex(capability.identity.machineId)
          case Failure(_) => Refused(RejectedInvalidMachineId)
          case Success(machineId) =>
            var decision := node.evaluate(delivery.contacts, sender, machineId);
            if !AllowsPeer(node.mesh, decision) then Refused(RejectedTrust(decision))
            else Admitted(capability, decision)
  }

  /** Update the peer's record in place, or insert a first one. */
  function Upsert(peers: seq<Entry<PeerCapabilityRecord>>, capability: CapabilityAnnouncement,
                  decision: TrustDecision, now: u64)
    : (seq<Entry<PeerCapabilityRecord>>, CapabilityDisposition)
  {
    var peerId := capability.identity.agentId;
    match Get(peers, peerId)
    case Some(existing) =>
      (Put(peers, peerId, PeerCapabilityRecord(capability, decision, existing.firstSeenUnixSecs, now)), UpdatedPeer)
    case None =>
      (Put(peers, peerId, PeerCapabilityRecord(capability, decision, now, now)), AcceptedNewPeer)
  }

  function Apply<C>(node: Node<C>, peers: seq<Entry<PeerCapabilityRecord>>, delivery: Delivery<C>)
    : (seq<Entry<PeerCapabilityRecord>>, CapabilityDisposition)
  {
    match Admit(node, delivery)
    case Refused(disposition) => (peers, disposition)
    case Admitted(capability, decision) => Upsert(peers, capability, decision, delivery.now)
  }

  /** The registry after a history of deliveries. */
  function After<C>(node: Node<C>, peers: seq<Entry<PeerCapabilityRecord>>, history: seq<Delivery<C>>)
    : seq<Entry<PeerCapabilityRecord>>
  {
    if history == [] then peers
    else Apply(node, After(node, peers, history[..|history| - 1]), history[|history| - 1]).0
  }

  /** What the i-th delivery of a history was answered. */
  function DispositionAt<C>(node: Node<C>, peers: seq<Entry<PeerCapabilityRecord>>, history: seq<Delivery<C>>, i: nat)
    : CapabilityDisposition
    requires i < |history|
  {
    Apply(node, After(node, peers, history[..i]), history[i]).1
  }

  class TrustedPeerRegistry {
    var peers: seq<Entry<PeerCapabilityRecord>>

    constructor ()
      ensures peers == []
    {
      peers := [];
    }

    function Snapshot(): seq<PeerCapabilityRecord>
      reads this
    {
      Values(peers)
    }

    function Len(): nat
      reads this
    {
      |peers|
    }

    predicate IsEmpty()
      reads this
    {
      peers == []
    }

    method ApplyMessage<C>(node: Node<C>, contacts: C, now: u64, message: PubSubMessage)
      returns (disposition: CapabilityDisposition)
      modifies this
      ensures (peers, disposition) == Apply(node, old(peers), Delivery(contacts, now, message))
    {
      if message.sender.None? {
        return RejectedMissingSender;
      }
      if !message.verified {
        return RejectedUnverifiedSender;
      }
      var sender := message.sender.value;
      var senderHex := EncodeAgentId(sender);
      if senderHex == node.localAgentId {
        return IgnoredSelf;
      }
      if message.payload.None? {
        return RejectedInvalidPayload;
      }
      var capability := message.payload.value;
      if capability.protocolVersion != PROTOCOL_VERSION {
        return RejectedUnsupportedProtocol;
      }
      if capability.policy.meshName != node.mesh.name {
        return RejectedWrongMesh;
      }
      if capability.identity.agentId != senderHex {
        return RejectedSenderMismatch;
      }
      var machineId := ParseMachineIdHex(capability.identity.machineId);
      if machineId.Failure? {
        return RejectedInvalidMachineId;
      }
      var decision := node.evaluate(contacts, sender, machineId.value);
      if !AllowsPeer(node.mesh, decision) {
        return RejectedTrust(decision);
      }
      var peerId := capability.identity.agentId;
      var existing := Get(peers, peerId);
      if existing.Some? {
        var updated := existing.value.(capability := capability, trustDecision := decision, lastSeenUnixSecs := now);
        peers := Put(peers, peerId, updated);
        return UpdatedPeer;
      } else {
        peers := Put(peers, peerId, PeerCapabilityRecord(capability, decision, now, now));
        return AcceptedNewPeer;
      }
    }
  }

  /** The receive loop: each message is applied, in the order received, under
      the contact store and the clock of its moment. */
  method SubscriptionLoop<C>(node: Node<C>, registry: TrustedPeerRegistry, received: seq<Delivery<C>>)
    returns (dispositions: seq<CapabilityDisposition>)
    modifies registry
    ensures registry.peers == After(node, old(registry.peers), received)
    ensures |dispositions| == |received|
    ensures forall i :: 0 <= i < |received| ==>
              dispositions[i] == DispositionAt(node, old(registry.peers), received, i)
  {
    dispositions := [];
    var n := 0;
    while n < |received|
      invariant n <= |received| && |dispositions| == n
      invariant registry.peers == After(node, old(registry.peers), received[..n])
      invariant forall i :: 0 <= i < n ==> dispositions[i] == DispositionAt(node, old(registry.peers), received, i)
    {
      var delivery := received[n];
      var disposition := registry.ApplyMessage(node, delivery.contacts, delivery.now, delivery.message);
      assert received[..n + 1][..n] == received[..n];
      dispositions := dispositions + [disposition];
      n := n + 1;
    }
    assert received[..n] == received;
  }
}
