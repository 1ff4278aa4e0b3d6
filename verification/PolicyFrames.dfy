/**
 What decisions and grants do not depend on: revoked records, records of other subjects, and permissions
 for other rooms.
 */
module PolicyFrames {
  import opened MemoryStore
  import opened Policy
  import opened RoomTokens
  import opened Sorting
  import opened Text

  lemma LatestWhereSkips<T(!new)>(s: seq<T>, x: T, p: T -> bool)
    requires !p(x)
    ensures LatestWhere(s + [x], p) == LatestWhere(s, p) && Filter(p, s + [x]) == Filter(p, s)
  {
    assert (s + [x])[..|s|] == s;
  }

  /** Every lookup the two services make for the subject, in any scope and in this room, answers alike. */
  ghost predicate SameLookups(env: Env, d: Data, d': Data, subject: string, roomId: string) {
    && (forall a, scope :: a in Aliases(env.keys, subject) ==> StandingOf(d', a, scope) == StandingOf(d, a, scope))
    && (forall a :: a in Aliases(env.keys, subject) ==>
          LatestWhere(d'.permissions, PermissionFor(a, roomId)) == LatestWhere(d.permissions, PermissionFor(a, roomId)))
    && (forall a, proofType :: a in Aliases(env.keys, subject) ==>
          LatestWhere(d'.proofs, ProofOf(a, proofType)) == LatestWhere(d.proofs, ProofOf(a, proofType)))
    && (forall a, scope :: a in Aliases(env.keys, subject) ==>
          Filter(PolicyFor(a, scope), d'.policies) == Filter(PolicyFor(a, scope), d.policies))
    && (forall capability, scope ::
          LatestWhere(d'.gates, GateFor(capability, scope)) == LatestWhere(d.gates, GateFor(capability, scope)))
  }

  // ----- Equal lookups, equal outcomes -----

  lemma SameStanding(env: Env, d: Data, d': Data, subject: string, roomId: string, scope: string)
    requires SameLookups(env, d, d', subject, roomId)
    ensures Standing(env, d', subject, scope) == Standing(env, d, subject, scope)
    ensures StandingAnswers(d', Aliases(env.keys, subject), scope)
         == StandingAnswers(d, Aliases(env.keys, subject), scope)
  {
    hide Aliases, StandingOf;
    assert StandingAnswers(d', Aliases(env.keys, subject), scope)
         == StandingAnswers(d, Aliases(env.keys, subject), scope);
  }

  lemma {:induction false} SameAssignmentsOf(d: Data, d': Data, aliases: seq<string>, scope: string)
    requires forall a :: a in aliases ==>
      Filter(PolicyFor(a, DefaultScope(scope)), d'.policies) == Filter(PolicyFor(a, DefaultScope(scope)), d.policies)
    ensures AssignmentsOf(d', aliases, scope) == AssignmentsOf(d, aliases, scope)
  {
    hide Filter;
    if aliases != [] {
      assert aliases[|aliases| - 1] in aliases;
      SameAssignmentsOf(d, d', aliases[..|aliases| - 1], scope);
    }
  }

  lemma SameGates(env: Env, d: Data, d': Data, subject: string, roomId: string, capability: string, standing: string,
                  assignments: seq<PolicyAssignment>, base: Decision)
    requires SameLookups(env, d, d', subject, roomId)
    ensures ApplyGate(env, d', subject, capability, standing, assignments, base)
         == ApplyGate(env, d, subject, capability, standing, assignments, base)
  {
    hide Aliases, LatestWhere, StandingOf, Filter;
    var gate := EffectiveGate(env, d, capability);
    assert EffectiveGate(env, d', capability) == gate;
    if gate.Some? {
      assert ProofGates(env, d', subject, gate.value.proofTypes) == ProofGates(env, d, subject, gate.value.proofTypes);
    }
  }

  lemma SamePermission(env: Env, d: Data, d': Data, subject: string, roomId: string)
    requires SameLookups(env, d, d', subject, roomId)
    ensures Permission(env, d', subject, roomId) == Permission(env, d, subject, roomId)
  {
    hide Aliases, LatestWhere, StandingOf, Filter;
    var aliases := Aliases(env.keys, subject);
    assert PermissionAnswers(d', aliases, roomId) == PermissionAnswers(d, aliases, roomId);
  }

  lemma SameBase(env: Env, d: Data, d': Data, subject: string, capability: string, standing: string, roomId: string)
    requires SameLookups(env, d, d', subject, roomId)
    ensures MediaBase(env, d', subject, capability, standing, roomId)
         == MediaBase(env, d, subject, capability, standing, roomId)
    ensures AdminAccess(env, d', subject) == AdminAccess(env, d, subject)
  {
    hide SameLookups, Standing, Permission;
    SameStanding(env, d, d', subject, roomId, "relay.admin");
    SamePermission(env, d, d', subject, roomId);
  }

  lemma SameDecide(env: Env, d: Data, d': Data, subject: string, capability: string, roomId: string,
                   looked: string, standing: string, assignments: seq<PolicyAssignment>)
    requires SameLookups(env, d, d', subject, roomId) && capability != ""
    ensures Decide(env, d', subject, capability, roomId, looked, standing, assignments)
         == Decide(env, d, subject, capability, roomId, looked, standing, assignments)
  {
    hide SameLookups, ApplyGate, MediaBase, AdminAccess, SameKey, HasType;
    SameBase(env, d, d', subject, capability, standing, roomId);
    var open := capability == "relay.publish";
    SameGates(env, d, d', subject, roomId, capability, standing, assignments,
      MediaBase(env, d, subject, capability, standing, roomId));
    SameGates(env, d, d', subject, roomId, capability, standing, assignments,
      Verdict(open, if open then "open_publish" else "unknown_capability", standing, capability));
  }

  lemma SameEvaluation(env: Env, d: Data, d': Data, subject: string, rawCapability: string, roomId: string)
    requires SameLookups(env, d, d', subject, roomId)
    ensures Evaluation(env, d', subject, rawCapability, roomId) == Evaluation(env, d, subject, rawCapability, roomId)
  {
    hide Decide, Aliases, Standing, LatestWhere, StandingOf;
    var capability := Trim(rawCapability);
    if capability != "" {
      var scope := CapabilityScope(capability);
      var looked, assignments := Standing(env, d, subject, scope), Assignments(env, d, subject, scope);
      var standing := if IsMedia(capability) then MediaStanding(env, d, subject, looked) else looked;
      SameStanding(env, d, d', subject, roomId, scope);
      SameStanding(env, d, d', subject, roomId, DEFAULT_SCOPE);
      SameStanding(env, d, d', subject, roomId, "relay.admin");
      SameAssignmentsOf(d, d', Aliases(env.keys, subject), scope);
      SameDecide(env, d, d', subject, capability, roomId, looked, standing, assignments);
    }
  }

  lemma SameGrants(env: Env, d: Data, d': Data, subject: string, roomId: string)
    requires SameLookups(env, d, d', subject, roomId)
    ensures RoomGrants(env, d', subject, roomId) == RoomGrants(env, d, subject, roomId)
  {
    hide SameLookups, StandingAnswers, Permission, SameKey;
    forall scope
      ensures StandingAnswers(d', Aliases(env.keys, subject), scope)
           == StandingAnswers(d, Aliases(env.keys, subject), scope)
    {
      SameStanding(env, d, d', subject, roomId, scope);
    }
    SamePermission(env, d, d', subject, roomId);
  }

  // ----- Records that do not matter -----

  predicate AddsStanding(d: Data, d': Data, r: StandingRecord) {
    d' == d.(nextId := d'.nextId, standings := d.standings + [r])
  }

  predicate AddsPermission(d: Data, d': Data, r: RoomPermission) {
    d' == d.(nextId := d'.nextId, permissions := d.permissions + [r])
  }

  predicate AddsProof(d: Data, d': Data, r: ProofVerification) {
    d' == d.(nextId := d'.nextId, proofs := d.proofs + [r])
  }

  predicate AddsAssignment(d: Data, d': Data, r: PolicyAssignment) {
    d' == d.(nextId := d'.nextId, policies := d.policies + [r])
  }

  predicate AddsGate(d: Data, d': Data, r: GatePolicy) {
    d' == d.(nextId := d'.nextId, gates := d.gates + [r])
  }

  predicate AddsPin(d: Data, d': Data, r: EditorialPin) {
    d' == d.(nextId := d'.nextId, pins := d.pins + [r])
  }

  predicate Idle(revoked: bool, subject: string, aliases: seq<string>) {
    revoked || subject !in aliases
  }

  predicate Elsewhere(r: RoomPermission, aliases: seq<string>, roomId: string) {
    Idle(r.revoked, r.subject, aliases) || r.roomId != roomId
  }

  /** A record of another subject, or a revoked one, or a permission for another room. */
  ghost predicate AppendsIrrelevant(env: Env, d: Data, d': Data, subject: string, roomId: string) {
    var aliases := Aliases(env.keys, subject);
    || (exists r: StandingRecord :: Idle(r.revoked, r.subject, aliases) && AddsStanding(d, d', r))
    || (exists r: RoomPermission :: Elsewhere(r, aliases, roomId) && AddsPermission(d, d', r))
    || (exists r: ProofVerification :: Idle(r.revoked, r.subject, aliases) && AddsProof(d, d', r))
    || (exists r: PolicyAssignment :: Idle(r.revoked, r.subject, aliases) && AddsAssignment(d, d', r))
    || (exists r: GatePolicy :: r.revoked && AddsGate(d, d', r))
    || (exists r: EditorialPin :: AddsPin(d, d', r))
  }

  lemma LookupsSkip(env: Env, d: Data, d': Data, subject: string, roomId: string, alias: string, scope: string)
    requires AppendsIrrelevant(env, d, d', subject, roomId) && alias in Aliases(env.keys, subject)
    ensures StandingOf(d', alias, scope) == StandingOf(d, alias, scope)
    ensures LatestWhere(d'.permissions, PermissionFor(alias, roomId))
         == LatestWhere(d.permissions, PermissionFor(alias, roomId))
    ensures LatestWhere(d'.proofs, ProofOf(alias, scope)) == LatestWhere(d.proofs, ProofOf(alias, scope))
    ensures Filter(PolicyFor(alias, scope), d'.policies) == Filter(PolicyFor(alias, scope), d.policies)
  {
    hide LatestWhere, Filter, Aliases;
    var aliases := Aliases(env.keys, subject);
    if r: StandingRecord :| Idle(r.revoked, r.subject, aliases) && AddsStanding(d, d', r) {
      LatestWhereSkips(d.standings, r, StandingIn(alias, DefaultScope(scope)));
      LatestWhereSkips(d.standings, r, StandingIn(alias, DEFAULT_SCOPE));
    } else if r: RoomPermission :| Elsewhere(r, aliases, roomId) && AddsPermission(d, d', r) {
      LatestWhereSkips(d.permissions, r, PermissionFor(alias, roomId));
    } else if r: ProofVerification :| Idle(r.revoked, r.subject, aliases) && AddsProof(d, d', r) {
      LatestWhereSkips(d.proofs, r, ProofOf(alias, scope));
    } else if r: PolicyAssignment :| Idle(r.revoked, r.subject, aliases) && AddsAssignment(d, d', r) {
      LatestWhereSkips(d.policies, r, PolicyFor(alias, scope));
    }
  }

  lemma GatesSkip(env: Env, d: Data, d': Data, subject: string, roomId: string, capability: string, scope: string)
    requires AppendsIrrelevant(env, d, d', subject, roomId)
    ensures LatestWhere(d'.gates, GateFor(capability, scope)) == LatestWhere(d.gates, GateFor(capability, scope))
  {
    hide LatestWhere, Aliases;
    if r: GatePolicy :| r.revoked && AddsGate(d, d', r) {
      LatestWhereSkips(d.gates, r, GateFor(capability, scope));
    }
  }

  /** Appending a record that is revoked, or of another subject, or a permission for another room, changes no
      decision about the subject and the room, and no grant. */
  lemma IrrelevantRecords(env: Env, d: Data, d': Data, subject: string, rawCapability: string, roomId: string)
    requires AppendsIrrelevant(env, d, d', subject, roomId)
    ensures Evaluation(env, d', subject, rawCapability, roomId) == Evaluation(env, d, subject, rawCapability, roomId)
    ensures RoomGrants(env, d', subject, roomId) == RoomGrants(env, d, subject, roomId)
  {
    hide Evaluation, RoomGrants, AppendsIrrelevant, StandingOf, LatestWhere, Filter, Aliases;
    forall a, scope | a in Aliases(env.keys, subject)
      ensures StandingOf(d', a, scope) == StandingOf(d, a, scope)
      ensures LatestWhere(d'.permissions, PermissionFor(a, roomId))
           == LatestWhere(d.permissions, PermissionFor(a, roomId))
      ensures LatestWhere(d'.proofs, ProofOf(a, scope)) == LatestWhere(d.proofs, ProofOf(a, scope))
      ensures Filter(PolicyFor(a, scope), d'.policies) == Filter(PolicyFor(a, scope), d.policies)
    {
      LookupsSkip(env, d, d', subject, roomId, a, scope);
    }
    forall a | a in Aliases(env.keys, subject)
      ensures LatestWhere(d'.permissions, PermissionFor(a, roomId))
           == LatestWhere(d.permissions, PermissionFor(a, roomId))
    {
      LookupsSkip(env, d, d', subject, roomId, a, "");
    }
    forall capability, scope
      ensures LatestWhere(d'.gates, GateFor(capability, scope)) == LatestWhere(d.gates, GateFor(capability, scope))
    {
      GatesSkip(env, d, d', subject, roomId, capability, scope);
    }
    SameEvaluation(env, d, d', subject, rawCapability, roomId);
    SameGrants(env, d, d', subject, roomId);
  }

  /** A permission for one room opens no other room. */
  lemma OtherRoomsDoNotMatter(env: Env, d: Data, r: RoomPermission, now: int, subject: string,
                              rawCapability: string, roomId: string)
    requires r.roomId != roomId
    ensures Evaluation(env, AddPermission(d, r, now), subject, rawCapability, roomId)
         == Evaluation(env, d, subject, rawCapability, roomId)
    ensures RoomGrants(env, AddPermission(d, r, now), subject, roomId) == RoomGrants(env, d, subject, roomId)
  {
    hide Evaluation, RoomGrants, Aliases;
    var d' := AddPermission(d, r, now);
    var stored := d'.permissions[|d.permissions|];
    assert stored.roomId != roomId && AddsPermission(d, d', stored);
    IrrelevantRecords(env, d, d', subject, rawCapability, roomId);
  }

  /** d' is d with one more record, which is revoked. */
  ghost predicate AppendsRevoked(d: Data, d': Data) {
    || (exists r: StandingRecord :: r.revoked && AddsStanding(d, d', r))
    || (exists r: RoomPermission :: r.revoked && AddsPermission(d, d', r))
    || (exists r: ProofVerification :: r.revoked && AddsProof(d, d', r))
    || (exists r: GatePolicy :: r.revoked && AddsGate(d, d', r))
    || (exists r: PolicyAssignment :: r.revoked && AddsAssignment(d, d', r))
    || (exists r: EditorialPin :: r.revoked && AddsPin(d, d', r))
  }

  /** Appending a revoked record, of any kind, changes no decision and no grant: a revocation is
      skipped by every lookup and does not undo the record it is meant for. */
  lemma RevokingChangesNothing(env: Env, d: Data, d': Data, subject: string, rawCapability: string, roomId: string)
    requires AppendsRevoked(d, d')
    ensures Evaluation(env, d', subject, rawCapability, roomId) == Evaluation(env, d, subject, rawCapability, roomId)
    ensures RoomGrants(env, d', subject, roomId) == RoomGrants(env, d, subject, roomId)
  {
    hide Evaluation, RoomGrants, Aliases;
    assert AppendsIrrelevant(env, d, d', subject, roomId);
    IrrelevantRecords(env, d, d', subject, rawCapability, roomId);
  }
}
