/**
 The policy service: who may publish, join a room, speak in it, or administer the relay. Lookups
 fold the answers for every alias of a key; every capability but administration also passes
 through its gate policy.
 */
module Policy {
  import opened Sequences
  import opened Sorting
  import opened Text
  import opened AuditCursor
  import opened MemoryStore

  // ----- Keys and aliases -----

  /** The key library: validity of a hex key, and bech32 decoding and encoding of `npub` keys. */
  datatype Keys = Keys(validHex: string -> bool, decodeNpub: string -> Option<string>,
                       encodeNpub: string -> Option<string>)

  function Canonicalize(keys: Keys, pubkey: string): string {
    var lowered := TrimLower(pubkey);
    if Trim(pubkey) == "" then ""
    else if keys.validHex(lowered) then lowered
    else if !("npub1" <= lowered) then lowered
    else
      match keys.decodeNpub(lowered)
      case None => lowered
      case Some(decoded) => if keys.validHex(TrimLower(decoded)) then TrimLower(decoded) else lowered
  }

  function AddAlias(aliases: seq<string>, value: string): seq<string> {
    var trimmed := Trim(value);
    if trimmed == "" || exists a :: a in aliases && ToLower(a) == ToLower(trimmed) then aliases else aliases + [trimmed]
  }

  function Aliases(keys: Keys, pubkey: string): seq<string> {
    var canonical := Canonicalize(keys, pubkey);
    if canonical == "" then []
    else
      var npub := keys.encodeNpub(canonical);
      var aliases := AddAlias([], canonical);
      AddAlias(if npub.Some? then AddAlias(aliases, ToLower(npub.value)) else aliases, pubkey)
  }

  predicate SameKey(keys: Keys, left: string, right: string) {
    Canonicalize(keys, left) != "" && Canonicalize(keys, left) == Canonicalize(keys, right)
  }

  // ----- Configuration and decisions -----

  datatype RoomDefaults = RoomDefaults(canPublish: bool, canSubscribe: bool, ok: bool)

  /** What the services are configured with. `roomDefaults` is the optional default-grant source. */
  datatype Env = Env(keys: Keys, operator: string, mediaJoinProofs: seq<string>,
                     roomDefaults: Option<string -> RoomDefaults>)

  datatype GateStatus = GateStatus(kind: string, verified: bool)

  datatype Decision = Decision(
    allow: bool, reason: string, standing: string, scope: string,
    proofRequirement: string, proofRequirementMet: bool, gates: seq<GateStatus>)

  function Verdict(allow: bool, reason: string, standing: string, scope: string): Decision {
    Decision(allow, reason, standing, scope, "", true, [])
  }

  function CapabilityScope(capability: string): string {
    if capability == "relay.admin" then "relay.admin"
    else if capability == "media.join" || capability == "media.publish" then "media"
    else "relay"
  }

  predicate IsMedia(capability: string) {
    capability == "media.join" || capability == "media.publish"
  }

  predicate DeniedByStanding(standing: string, capability: string) {
    standing == "banned" || (standing == "suspended" && capability != "read")
  }

  predicate IsPrivileged(standing: string) {
    standing == "owner" || standing == "moderator"
  }

  // ----- Folding the answers of all aliases -----

  /** The answer with the latest time, the earlier one on a tie. */
  function Newest<R>(answers: seq<Option<R>>, time: R -> int): Option<R> {
    if answers == [] then None
    else
      var best, last := Newest(answers[..|answers| - 1], time), answers[|answers| - 1];
      if last.Some? && (best.None? || time(last.value) > time(best.value)) then last else best
  }

  const StandingTime: StandingRecord -> int := (r: StandingRecord) => r.createdAt
  const PermissionTime: RoomPermission -> int := (r: RoomPermission) => r.createdAt

  function StandingAnswers(d: Data, aliases: seq<string>, scope: string): (answers: seq<Option<StandingRecord>>)
    ensures |answers| == |aliases|
  {
    seq(|aliases|, i requires 0 <= i < |aliases| => StandingOf(d, aliases[i], scope))
  }

  function PermissionAnswers(d: Data, aliases: seq<string>, roomId: string): (answers: seq<Option<RoomPermission>>)
    ensures |answers| == |aliases|
  {
    seq(|aliases|, i requires 0 <= i < |aliases| => LatestWhere(d.permissions, PermissionFor(aliases[i], roomId)))
  }

  function Standing(env: Env, d: Data, subject: string, scope: string): string {
    var record := Newest(StandingAnswers(d, Aliases(env.keys, subject), scope), StandingTime);
    if record.Some? then record.value.standing else "guest"
  }

  function Permission(env: Env, d: Data, subject: string, roomId: string): Option<RoomPermission> {
    Newest(PermissionAnswers(d, Aliases(env.keys, subject), roomId), PermissionTime)
  }

  function AssignmentsOf(d: Data, aliases: seq<string>, scope: string): seq<PolicyAssignment> {
    if aliases == [] then []
    else
      AssignmentsOf(d, aliases[..|aliases| - 1], scope)
        + Filter(PolicyFor(aliases[|aliases| - 1], DefaultScope(scope)), d.policies)
  }

  function Assignments(env: Env, d: Data, subject: string, scope: string): seq<PolicyAssignment> {
    AssignmentsOf(d, Aliases(env.keys, subject), scope)
  }

  predicate HasProof(env: Env, d: Data, subject: string, proofType: string) {
    AnyHolds(d, Aliases(env.keys, subject), proofType)
  }

  predicate AnyHolds(d: Data, aliases: seq<string>, proofType: string) {
    exists i :: 0 <= i < |aliases| && LatestWhere(d.proofs, ProofOf(aliases[i], proofType)).Some?
  }

  predicate HasType(assignments: seq<PolicyAssignment>, policyType: string) {
    exists i :: 0 <= i < |assignments| && assignments[i].policyType == policyType
  }

  function MediaStanding(env: Env, d: Data, subject: string, fallback: string): string {
    if IsPrivileged(fallback) then fallback
    else if IsPrivileged(Standing(env, d, subject, DEFAULT_SCOPE)) then Standing(env, d, subject, DEFAULT_SCOPE)
    else if IsPrivileged(Standing(env, d, subject, "relay.admin")) then Standing(env, d, subject, "relay.admin")
    else fallback
  }

  // ----- Gates -----

  function EffectiveGate(env: Env, d: Data, capability: string): Option<GatePolicy> {
    var gate := LatestWhere(d.gates, GateFor(capability, DefaultScope(CapabilityScope(capability))));
    if gate.Some? then gate
    else if capability == "media.join" && |env.mediaJoinProofs| > 0 then
      Some(GatePolicy(0, capability, CapabilityScope(capability), false, env.mediaJoinProofs, false, ZERO_TIME))
    else None
  }

  predicate OnGuestList(standing: string, assignments: seq<PolicyAssignment>) {
    standing in {"member", "trusted", "moderator", "owner"} || HasType(assignments, "guest")
  }

  function ProofGates(env: Env, d: Data, subject: string, proofTypes: seq<string>): (gates: seq<GateStatus>)
    ensures |gates| == |proofTypes|
  {
    seq(|proofTypes|, i requires 0 <= i < |proofTypes| =>
      GateStatus(proofTypes[i], HasProof(env, d, subject, proofTypes[i])))
  }

  /** The first missing proof that has a name; the loop takes an unnamed one for no missing proof. */
  function FirstMissing(gates: seq<GateStatus>): string {
    if gates == [] then ""
    else
      var first := FirstMissing(gates[..|gates| - 1]);
      if first == "" && !gates[|gates| - 1].verified then gates[|gates| - 1].kind else first
  }

  predicate AllVerified(gates: seq<GateStatus>) {
    forall i :: 0 <= i < |gates| ==> gates[i].verified
  }

  lemma OneMoreGate(gates: seq<GateStatus>, gate: GateStatus)
    ensures AllVerified(gates + [gate]) == (AllVerified(gates) && gate.verified)
    ensures FirstMissing(gates + [gate])
         == if FirstMissing(gates) == "" && !gate.verified then gate.kind else FirstMissing(gates)
  {
    var more := gates + [gate];
    assert more[..|gates|] == gates && more[|gates|] == gate;
    assert forall i :: 0 <= i < |gates| ==> more[i] == gates[i];
  }

  function ApplyGate(env: Env, d: Data, subject: string, capability: string, standing: string,
                     assignments: seq<PolicyAssignment>, base: Decision): Decision {
    match EffectiveGate(env, d, capability)
    case None => base
    case Some(gate) => ThroughGate(env, d, subject, capability, standing, assignments, base, gate)
  }

  function ThroughGate(env: Env, d: Data, subject: string, capability: string, standing: string,
                       assignments: seq<PolicyAssignment>, base: Decision, gate: GatePolicy): Decision {
    var listed := OnGuestList(standing, assignments);
    var guestGates := if gate.requireGuest then [GateStatus("guest_list", listed)] else [];
    if gate.requireGuest && !listed then
      Decision(false, "not_allowlisted", standing, capability, "guest_list", false, guestGates)
    else
      var proofGates := ProofGates(env, d, subject, gate.proofTypes);
      var gates := guestGates + proofGates;
      if !AllVerified(proofGates) then
        Decision(false, "required_proof", standing, capability, FirstMissing(proofGates), false, gates)
      else if gates == [] then base
      else
        var reason :=
          if gate.proofTypes == [] then "allowlisted"
          else if gate.requireGuest then "gate_stack_satisfied"
          else "proof_verified";
        base.(reason := reason, gates := gates, proofRequirementMet := true)
  }

  // ----- Evaluation -----

  function AdminAccess(env: Env, d: Data, subject: string): Decision {
    if SameKey(env.keys, subject, env.operator) then Verdict(true, "bootstrap_operator", "owner", "relay.admin")
    else
      var standing := Standing(env, d, subject, "relay.admin");
      if IsPrivileged(standing) then Verdict(true, "local_standing", standing, "relay.admin")
      else Verdict(false, "insufficient_standing", standing, "relay.admin")
  }

  /** The base rule of the media capabilities, before gates. */
  function MediaBase(env: Env, d: Data, subject: string, capability: string, standing: string,
                     roomId: string): Decision
  {
    if IsPrivileged(standing) then Verdict(true, "local_standing", standing, capability)
    else
      match Permission(env, d, subject, roomId)
      case None =>
        if capability == "media.join" && env.roomDefaults.Some?
          && env.roomDefaults.value(roomId).ok && env.roomDefaults.value(roomId).canSubscribe
        then Verdict(true, "room_default_listener", standing, capability)
        else Verdict(false, "room_permission_missing", standing, capability)
      case Some(permission) =>
        if (capability == "media.join" && permission.canJoin)
          || (capability == "media.publish" && permission.canPublish)
        then Verdict(true, "room_permission", standing, capability)
        else Verdict(false, "room_permission_denied", standing, capability)
  }

  /** The outcome once the capability is trimmed and its standing and assignments are looked up. */
  function Decide(env: Env, d: Data, subject: string, capability: string, roomId: string,
                  looked: string, standing: string, assignments: seq<PolicyAssignment>): Decision
    requires capability != ""
  {
    if SameKey(env.keys, subject, env.operator) then Verdict(true, "bootstrap_operator", "owner", capability)
    else if DeniedByStanding(looked, capability) then Verdict(false, "standing_blocks_capability", looked, capability)
    else if HasType(assignments, "block") then Verdict(false, "block_policy", standing, capability)
    else if capability == "relay.admin" then AdminAccess(env, d, subject)
    else if IsMedia(capability) then
      var base := MediaBase(env, d, subject, capability, standing, roomId);
      if base.allow then ApplyGate(env, d, subject, capability, standing, assignments, base) else base
    else
      var open := capability == "relay.publish";
      ApplyGate(env, d, subject, capability, standing, assignments,
        Verdict(open, if open then "open_publish" else "unknown_capability", standing, capability))
  }

  function Evaluation(env: Env, d: Data, subject: string, rawCapability: string, roomId: string): Decision {
    var capability := Trim(rawCapability);
    if capability == "" then Decision(false, "missing_capability", "unknown", "", "", false, [])
    else
      var looked := Standing(env, d, subject, CapabilityScope(capability));
      var standing := if IsMedia(capability) then MediaStanding(env, d, subject, looked) else looked;
      Decide(env, d, subject, capability, roomId, looked, standing,
        Assignments(env, d, subject, CapabilityScope(capability)))
  }

  // ----- The service as it runs -----

  class Service {
    const store: Store
    const env: Env

    constructor (store: Store, env: Env)
      ensures this.store == store && this.env == env
    {
      this.store := store;
      this.env := env;
    }

    /** The loop of `latestStandingRecord`. */
    method FoldStandings(aliases: seq<string>, scope: string) returns (latest: Option<StandingRecord>)
      ensures latest == Newest(StandingAnswers(store.Contents(), aliases, scope), StandingTime)
    {
      ghost var answers := StandingAnswers(store.Contents(), aliases, scope);
      latest := None;
      for i := 0 to |aliases|
        invariant latest == Newest(answers[..i], StandingTime)
      {
        var record := store.LatestStanding(aliases[i], scope);
        assert answers[..i + 1][..i] == answers[..i];
        if record.None? {
          continue;
        }
        if latest.None? || record.value.createdAt > latest.value.createdAt {
          latest := record;
        }
      }
      assert answers[..|aliases|] == answers;
    }

    method LatestStandingRecord(subject: string, scope: string) returns (latest: Option<StandingRecord>)
      ensures latest == Newest(StandingAnswers(store.Contents(), Aliases(env.keys, subject), scope), StandingTime)
    {
      latest := FoldStandings(Aliases(env.keys, subject), scope);
    }

    /** The loop of `latestRoomPermission`. */
    method FoldPermissions(aliases: seq<string>, roomId: string) returns (latest: Option<RoomPermission>)
      ensures latest == Newest(PermissionAnswers(store.Contents(), aliases, roomId), PermissionTime)
    {
      ghost var answers := PermissionAnswers(store.Contents(), aliases, roomId);
      latest := None;
      for i := 0 to |aliases|
        invariant latest == Newest(answers[..i], PermissionTime)
      {
        var record := store.LatestRoomPermission(aliases[i], roomId);
        assert answers[..i + 1][..i] == answers[..i];
        if record.None? {
          continue;
        }
        if latest.None? || record.value.createdAt > latest.value.createdAt {
          latest := record;
        }
      }
      assert answers[..|aliases|] == answers;
    }

    method LatestRoomPermission(subject: string, roomId: string) returns (latest: Option<RoomPermission>)
      ensures latest == Permission(env, store.Contents(), subject, roomId)
    {
      latest := FoldPermissions(Aliases(env.keys, subject), roomId);
    }

    /** The loop of `activePolicyAssignments`. */
    method FoldAssignments(aliases: seq<string>, scope: string) returns (assignments: seq<PolicyAssignment>)
      ensures assignments == AssignmentsOf(store.Contents(), aliases, scope)
    {
      assignments := [];
      for i := 0 to |aliases|
        invariant assignments == AssignmentsOf(store.Contents(), aliases[..i], scope)
      {
        var records := store.ActivePolicyAssignments(aliases[i], scope);
        assert aliases[..i + 1][..i] == aliases[..i];
        assignments := assignments + records;
      }
      assert aliases[..|aliases|] == aliases;
    }

    method ActivePolicyAssignments(subject: string, scope: string) returns (assignments: seq<PolicyAssignment>)
      ensures assignments == Assignments(env, store.Contents(), subject, scope)
    {
      assignments := FoldAssignments(Aliases(env.keys, subject), scope);
    }

    /** The loop of `hasProofVerification`. */
    method FindProof(aliases: seq<string>, proofType: string) returns (verified: bool)
      ensures verified == AnyHolds(store.Contents(), aliases, proofType)
    {
      for i := 0 to |aliases|
        invariant forall k :: 0 <= k < i ==> LatestWhere(store.proofRecords, ProofOf(aliases[k], proofType)).None?
      {
        var record := store.LatestProofVerification(aliases[i], proofType);
        if record.Some? {
          return true;
        }
      }
      return false;
    }

    method HasProofVerification(subject: string, proofType: string) returns (verified: bool)
      ensures verified == HasProof(env, store.Contents(), subject, proofType)
    {
      verified := FindProof(Aliases(env.keys, subject), proofType);
    }

    method LookupStanding(subject: string, scope: string) returns (standing: string)
      ensures standing == Standing(env, store.Contents(), subject, scope)
    {
      var record := LatestStandingRecord(subject, scope);
      return if record.Some? then record.value.standing else "guest";
    }

    method LookupPrivilegedMediaStanding(subject: string, fallback: string) returns (standing: string)
      ensures standing == MediaStanding(env, store.Contents(), subject, fallback)
    {
      if IsPrivileged(fallback) {
        return fallback;
      }
      var scopes := [DEFAULT_SCOPE, "relay.admin"];
      for i := 0 to |scopes|
        invariant forall k :: 0 <= k < i ==> !IsPrivileged(Standing(env, store.Contents(), subject, scopes[k]))
      {
        standing := LookupStanding(subject, scopes[i]);
        if IsPrivileged(standing) {
          assert i == 1 ==> !IsPrivileged(Standing(env, store.Contents(), subject, scopes[0]));
          return;
        }
      }
      assert !IsPrivileged(Standing(env, store.Contents(), subject, scopes[0]));
      assert !IsPrivileged(Standing(env, store.Contents(), subject, scopes[1]));
      return fallback;
    }

    method EffectiveGatePolicy(capability: string) returns (gate: Option<GatePolicy>)
      ensures gate == EffectiveGate(env, store.Contents(), capability)
    {
      gate := store.LatestGatePolicy(capability, CapabilityScope(capability));
      if gate.Some? {
        return;
      }
      if capability == "media.join" && |env.mediaJoinProofs| > 0 {
        gate := Some(GatePolicy(0, capability, CapabilityScope(capability), false, env.mediaJoinProofs, false,
          ZERO_TIME));
      }
    }

    /** The proof loop of `applyGatePolicy`. */
    method CheckProofs(subject: string, proofTypes: seq<string>)
      returns (gates: seq<GateStatus>, met: bool, firstMissing: string)
      ensures gates == ProofGates(env, store.Contents(), subject, proofTypes)
      ensures met == AllVerified(gates) && firstMissing == FirstMissing(gates)
    {
      hide HasProof;
      ghost var all := ProofGates(env, store.Contents(), subject, proofTypes);
      gates, met, firstMissing := [], true, "";
      for i := 0 to |proofTypes|
        invariant gates == all[..i]
        invariant met == AllVerified(gates) && firstMissing == FirstMissing(gates)
        invariant firstMissing != "" ==> !met
      {
        var verified := HasProofVerification(subject, proofTypes[i]);
        var gate := GateStatus(proofTypes[i], verified);
        OneMoreGate(gates, gate);
        TakeSnoc(all, i);
        gates := gates + [gate];
        if !verified && firstMissing == "" {
          firstMissing := proofTypes[i];
          met := false;
        }
      }
    }

    method ApplyGatePolicy(subject: string, capability: string, standing: string,
                           assignments: seq<PolicyAssignment>, base: Decision) returns (decision: Decision)
      ensures decision == ApplyGate(env, store.Contents(), subject, capability, standing, assignments, base)
    {
      var effective := EffectiveGatePolicy(capability);
      if effective.None? {
        return base;
      }
      decision := PassGate(subject, capability, standing, assignments, base, effective.value);
    }

    /** `applyGatePolicy` once the gate is known. */
    method PassGate(subject: string, capability: string, standing: string,
                    assignments: seq<PolicyAssignment>, base: Decision, gate: GatePolicy) returns (decision: Decision)
      ensures decision == ThroughGate(env, store.Contents(), subject, capability, standing, assignments, base, gate)
    {
      hide OnGuestList, FirstMissing, AllVerified, ProofGates;
      var gates: seq<GateStatus> := [];
      if gate.requireGuest {
        var listed := OnGuestList(standing, assignments);
        gates := gates + [GateStatus("guest_list", listed)];
        if !listed {
          return Decision(false, "not_allowlisted", standing, capability, "guest_list", false, gates);
        }
      }
      var proofGates, met, firstMissing := CheckProofs(subject, gate.proofTypes);
      gates := gates + proofGates;
      if !met {
        return Decision(false, "required_proof", standing, capability, firstMissing, false, gates);
      }
      if |gates| == 0 {
        return base;
      }
      var reason := "gate_stack_satisfied";
      if gate.requireGuest && |gate.proofTypes| == 0 {
        reason := "allowlisted";
      }
      if |gate.proofTypes| > 0 && !gate.requireGuest {
        reason := "proof_verified";
      }
      return base.(reason := reason, gates := gates, proofRequirementMet := true);
    }

    method CheckAdminAccess(subject: string) returns (decision: Decision)
      ensures decision == AdminAccess(env, store.Contents(), subject)
    {
      if SameKey(env.keys, subject, env.operator) {
        return Verdict(true, "bootstrap_operator", "owner", "relay.admin");
      }
      var standing := LookupStanding(subject, "relay.admin");
      if standing == "owner" || standing == "moderator" {
        return Verdict(true, "local_standing", standing, "relay.admin");
      }
      return Verdict(false, "insufficient_standing", standing, "relay.admin");
    }

    method EvaluateMedia(subject: string, capability: string, standing: string,
                         assignments: seq<PolicyAssignment>, roomId: string) returns (decision: Decision)
      requires IsMedia(capability)
      ensures var base := MediaBase(env, store.Contents(), subject, capability, standing, roomId);
        decision
          == if base.allow then ApplyGate(env, store.Contents(), subject, capability, standing, assignments, base)
             else base
    {
      if IsPrivileged(standing) {
        decision := ApplyGatePolicy(subject, capability, standing, assignments,
          Verdict(true, "local_standing", standing, capability));
        return;
      }
      var found := LatestRoomPermission(subject, roomId);
      if found.None? {
        if capability == "media.join" && env.roomDefaults.Some? {
          var defaults := env.roomDefaults.value(roomId);
          if defaults.ok && defaults.canSubscribe {
            decision := ApplyGatePolicy(subject, capability, standing, assignments,
              Verdict(true, "room_default_listener", standing, capability));
            return;
          }
        }
        return Verdict(false, "room_permission_missing", standing, capability);
      }
      var permission := found.value;
      var base := Verdict(false, "unknown_capability", standing, capability);
      if capability == "media.join" && permission.canJoin {
        base := Verdict(true, "room_permission", standing, capability);
      }
      if capability == "media.publish" && permission.canPublish {
        base := Verdict(true, "room_permission", standing, capability);
      }
      if !base.allow {
        return Verdict(false, "room_permission_denied", standing, capability);
      }
      decision := ApplyGatePolicy(subject, capability, standing, assignments, base);
    }

    /** The loop of `Evaluate` over the active assignments. */
    method HasBlock(assignments: seq<PolicyAssignment>) returns (blocked: bool)
      ensures blocked == HasType(assignments, "block")
    {
      for i := 0 to |assignments|
        invariant forall k :: 0 <= k < i ==> assignments[k].policyType != "block"
      {
        if assignments[i].policyType == "block" {
          return true;
        }
      }
      return false;
    }

    method Evaluate(subject: string, rawCapability: string, roomId: string) returns (decision: Decision)
      ensures decision == Evaluation(env, store.Contents(), subject, rawCapability, roomId)
    {
      var capability := Trim(rawCapability);
      if capability == "" {
        return Decision(false, "missing_capability", "unknown", "", "", false, []);
      }
      if SameKey(env.keys, subject, env.operator) {
        return Verdict(true, "bootstrap_operator", "owner", capability);
      }
      var standing := LookupStanding(subject, CapabilityScope(capability));
      if DeniedByStanding(standing, capability) {
        return Verdict(false, "standing_blocks_capability", standing, capability);
      }
      if IsMedia(capability) {
        standing := LookupPrivilegedMediaStanding(subject, standing);
      }
      var assignments := ActivePolicyAssignments(subject, CapabilityScope(capability));
      var blocked := HasBlock(assignments);
      if blocked {
        return Verdict(false, "block_policy", standing, capability);
      }
      if capability == "relay.admin" {
        decision := CheckAdminAccess(subject);
        return;
      }
      if IsMedia(capability) {
        decision := EvaluateMedia(subject, capability, standing, assignments, roomId);
        return;
      }
      var base := Verdict(false, "unknown_capability", standing, capability);
      if capability == "relay.publish" {
        base := Verdict(true, "open_publish", standing, capability);
      }
      decision := ApplyGatePolicy(subject, capability, standing, assignments, base);
    }
  }
}
