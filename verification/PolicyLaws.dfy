/**
 The policy service against a declarative rule, what its decisions are monotone in, and its
 agreement with the token service.
 */
module PolicyLaws {
  import opened Sorting
  import opened Text
  import opened MemoryStore
  import opened Policy
  import opened RoomTokens

  // ----- Lookups, declaratively -----

  /** r satisfies p, and nothing appended after it does. */
  ghost predicate IsLatest<T(!new)>(s: seq<T>, p: T -> bool, r: T) {
    exists k :: 0 <= k < |s| && s[k] == r && p(r) && forall j :: k < j < |s| ==> !p(s[j])
  }

  lemma {:induction false} LatestWhereIsLatest<T(!new)>(s: seq<T>, p: T -> bool)
    ensures LatestWhere(s, p).None? <==> forall k :: 0 <= k < |s| ==> !p(s[k])
    ensures forall r :: LatestWhere(s, p) == Some(r) <==> IsLatest(s, p, r)
  {
    if s != [] && !p(s[|s| - 1]) {
      var init := s[..|s| - 1];
      LatestWhereIsLatest(init, p);
      forall r ensures IsLatest(s, p, r) <==> IsLatest(init, p, r) {
        if IsLatest(s, p, r) {
          var k :| 0 <= k < |s| && s[k] == r && p(r) && forall j :: k < j < |s| ==> !p(s[j]);
          assert init[k] == r;
        }
      }
    }
  }

  /** Answer i is newer than every earlier answer and at least as new as every later one. */
  ghost predicate Wins<R>(answers: seq<Option<R>>, time: R -> int, i: int)
    requires 0 <= i < |answers| && answers[i].Some?
  {
    && (forall j :: 0 <= j < i && answers[j].Some? ==> time(answers[j].value) < time(answers[i].value))
    && (forall j :: i < j < |answers| && answers[j].Some? ==> time(answers[j].value) <= time(answers[i].value))
  }

  /** The last answer wins when it is the first or strictly newer; otherwise the winner stays. */
  lemma WinsSnoc<R>(answers: seq<Option<R>>, time: R -> int, i: nat)
    requires i < |answers| - 1 && answers[i].Some? && Wins(answers[..|answers| - 1], time, i)
    ensures var last := |answers| - 1;
      if answers[last].Some? && time(answers[last].value) > time(answers[i].value) then Wins(answers, time, last)
      else Wins(answers, time, i)
  {
  }

  lemma {:induction false} NewestWins<R(!new)>(answers: seq<Option<R>>, time: R -> int)
    ensures Newest(answers, time).None? <==> forall i :: 0 <= i < |answers| ==> answers[i].None?
    ensures Newest(answers, time).Some? ==>
      exists i :: 0 <= i < |answers| && answers[i] == Newest(answers, time) && Wins(answers, time, i)
  {
    if answers != [] {
      var init, last := answers[..|answers| - 1], |answers| - 1;
      NewestWins(init, time);
      if Newest(init, time).Some? {
        var i :| 0 <= i < |init| && init[i] == Newest(init, time) && Wins(init, time, i);
        WinsSnoc(answers, time, i);
        assert answers[i] == init[i];
      } else if answers[last].Some? {
        assert Wins(answers, time, last);
      }
    }
  }

  lemma WinnerIsUnique<R(!new)>(answers: seq<Option<R>>, time: R -> int, i: int)
    requires 0 <= i < |answers| && answers[i].Some? && Wins(answers, time, i)
    ensures Newest(answers, time) == answers[i]
  {
    NewestWins(answers, time);
    var j :| 0 <= j < |answers| && answers[j] == Newest(answers, time) && Wins(answers, time, j);
  }

  // ----- The rule -----

  /** An alias of the subject has an active assignment of the given type in the scope. */
  ghost predicate Assigned(env: Env, d: Data, subject: string, scope: string, policyType: string) {
    exists r, a :: r in d.policies && a in Aliases(env.keys, subject) && r.subject == a
      && !r.revoked && (r.scope == "relay" || r.scope == DefaultScope(scope)) && r.policyType == policyType
  }

  /** An alias of the subject holds an unrevoked proof of the given type. */
  ghost predicate Proven(env: Env, d: Data, subject: string, proofType: string) {
    exists r, a :: r in d.proofs && a in Aliases(env.keys, subject) && r.subject == a
      && r.proofType == proofType && !r.revoked
  }

  predicate StandsPrivileged(env: Env, d: Data, subject: string, scope: string) {
    Standing(env, d, subject, scope) in {"owner", "moderator"}
  }

  predicate PrivilegedInMedia(env: Env, d: Data, subject: string) {
    || StandsPrivileged(env, d, subject, "media")
    || StandsPrivileged(env, d, subject, "relay")
    || StandsPrivileged(env, d, subject, "relay.admin")
  }

  ghost predicate GuestListed(env: Env, d: Data, subject: string, capability: string) {
    || Standing(env, d, subject, CapabilityScope(capability)) in {"member", "trusted", "moderator", "owner"}
    || (IsMedia(capability) && PrivilegedInMedia(env, d, subject))
    || Assigned(env, d, subject, CapabilityScope(capability), "guest")
  }

  ghost predicate GatesMet(env: Env, d: Data, subject: string, capability: string) {
    var gate := EffectiveGate(env, d, capability);
    gate.Some? ==>
      && (gate.value.requireGuest ==> GuestListed(env, d, subject, capability))
      && (forall t :: t in gate.value.proofTypes ==> Proven(env, d, subject, t))
  }

  ghost predicate BaseRule(env: Env, d: Data, subject: string, capability: string, roomId: string) {
    var permission := Permission(env, d, subject, roomId);
    || capability == "relay.publish"
    || (IsMedia(capability) && PrivilegedInMedia(env, d, subject))
    || (capability == "media.join" && permission.Some? && permission.value.canJoin)
    || (capability == "media.publish" && permission.Some? && permission.value.canPublish)
    || (capability == "media.join" && permission.None? && env.roomDefaults.Some?
        && env.roomDefaults.value(roomId).ok && env.roomDefaults.value(roomId).canSubscribe)
  }

  /** Who may do what. */
  ghost predicate Permitted(env: Env, d: Data, subject: string, capability: string, roomId: string) {
    && capability != ""
    && (SameKey(env.keys, subject, env.operator)
        || (&& Standing(env, d, subject, CapabilityScope(capability)) !in {"banned", "suspended"}
            && !Assigned(env, d, subject, CapabilityScope(capability), "block")
            && (if capability == "relay.admin" then StandsPrivileged(env, d, subject, "relay.admin")
                else BaseRule(env, d, subject, capability, roomId) && GatesMet(env, d, subject, capability))))
  }

  lemma {:induction false} AssignmentsMembers(d: Data, aliases: seq<string>, scope: string, r: PolicyAssignment)
    ensures r in AssignmentsOf(d, aliases, scope)
       <==> r in d.policies && r.subject in aliases && PolicyFor(r.subject, DefaultScope(scope))(r)
  {
    if aliases != [] {
      var last := aliases[|aliases| - 1];
      AssignmentsMembers(d, aliases[..|aliases| - 1], scope, r);
      FilterMembers(PolicyFor(last, DefaultScope(scope)), d.policies, r);
      assert r.subject in aliases <==> r.subject in aliases[..|aliases| - 1] || r.subject == last;
    }
  }

  lemma HasTypeIffAssigned(env: Env, d: Data, subject: string, scope: string, policyType: string)
    ensures HasType(Assignments(env, d, subject, scope), policyType) <==> Assigned(env, d, subject, scope, policyType)
  {
    var assignments := Assignments(env, d, subject, scope);
    forall r
      ensures r in assignments
         <==> r in d.policies && r.subject in Aliases(env.keys, subject) && PolicyFor(r.subject, DefaultScope(scope))(r)
    {
      AssignmentsMembers(d, Aliases(env.keys, subject), scope, r);
    }
    if HasType(assignments, policyType) {
      var i :| 0 <= i < |assignments| && assignments[i].policyType == policyType;
      assert assignments[i] in assignments;
    }
    if Assigned(env, d, subject, scope, policyType) {
      var r, a :| r in d.policies && a in Aliases(env.keys, subject) && r.subject == a
        && !r.revoked && (r.scope == DEFAULT_SCOPE || r.scope == DefaultScope(scope)) && r.policyType == policyType;
      assert r in assignments;
    }
  }

  lemma HasProofIffProven(env: Env, d: Data, subject: string, proofType: string)
    ensures HasProof(env, d, subject, proofType) <==> Proven(env, d, subject, proofType)
  {
    hide Aliases, LatestWhere;
    var aliases := Aliases(env.keys, subject);
    forall i | 0 <= i < |aliases|
      ensures LatestWhere(d.proofs, ProofOf(aliases[i], proofType)).Some? <==>
        exists k :: 0 <= k < |d.proofs| && ProofOf(aliases[i], proofType)(d.proofs[k])
    {
      LatestWhereIsLatest(d.proofs, ProofOf(aliases[i], proofType));
    }
    if HasProof(env, d, subject, proofType) {
      var i :| 0 <= i < |aliases| && LatestWhere(d.proofs, ProofOf(aliases[i], proofType)).Some?;
      var k :| 0 <= k < |d.proofs| && ProofOf(aliases[i], proofType)(d.proofs[k]);
      assert d.proofs[k] in d.proofs && aliases[i] in aliases;
    }
    if Proven(env, d, subject, proofType) {
      var r, a :| r in d.proofs && a in aliases && r.subject == a && r.proofType == proofType && !r.revoked;
      var i :| 0 <= i < |aliases| && aliases[i] == a;
      var k :| 0 <= k < |d.proofs| && d.proofs[k] == r;
      assert ProofOf(aliases[i], proofType)(d.proofs[k]);
    }
  }

  lemma ProofGatesMet(env: Env, d: Data, subject: string, proofTypes: seq<string>)
    ensures AllVerified(ProofGates(env, d, subject, proofTypes))
       <==> forall t :: t in proofTypes ==> Proven(env, d, subject, t)
  {
    var gates := ProofGates(env, d, subject, proofTypes);
    forall i | 0 <= i < |gates| ensures gates[i].verified == Proven(env, d, subject, proofTypes[i]) {
      HasProofIffProven(env, d, subject, proofTypes[i]);
    }
    if AllVerified(gates) {
      forall t | t in proofTypes ensures Proven(env, d, subject, t) {
        var i :| 0 <= i < |proofTypes| && proofTypes[i] == t;
        assert gates[i].verified;
      }
    }
  }

  lemma OnListIffListed(env: Env, d: Data, subject: string, capability: string, looked: string, standing: string)
    requires looked == Standing(env, d, subject, CapabilityScope(capability))
    requires standing == if IsMedia(capability) then MediaStanding(env, d, subject, looked) else looked
    ensures OnGuestList(standing, Assignments(env, d, subject, CapabilityScope(capability)))
         == GuestListed(env, d, subject, capability)
  {
    hide Assigned, HasType, Standing, Assignments;
    HasTypeIffAssigned(env, d, subject, CapabilityScope(capability), "guest");
  }

  /** Gates never turn a deny into an allow, and pass an allow exactly when they are met. */
  lemma GateFilters(env: Env, d: Data, subject: string, capability: string, standing: string, base: Decision)
    requires var looked := Standing(env, d, subject, CapabilityScope(capability));
      standing == if IsMedia(capability) then MediaStanding(env, d, subject, looked) else looked
    ensures var assignments := Assignments(env, d, subject, CapabilityScope(capability));
      ApplyGate(env, d, subject, capability, standing, assignments, base).allow
      <==> base.allow && GatesMet(env, d, subject, capability)
  {
    hide GuestListed, OnGuestList, Assignments, MediaStanding, Standing, Proven, AllVerified, EffectiveGate;
    var gate := EffectiveGate(env, d, capability);
    if gate.Some? {
      OnListIffListed(env, d, subject, capability, Standing(env, d, subject, CapabilityScope(capability)), standing);
      ProofGatesMet(env, d, subject, gate.value.proofTypes);
    }
  }

  lemma MediaRefinesRule(env: Env, d: Data, subject: string, rawCapability: string, roomId: string)
    requires IsMedia(Trim(rawCapability))
    ensures Evaluation(env, d, subject, rawCapability, roomId).allow
       <==> Permitted(env, d, subject, Trim(rawCapability), roomId)
  {
    hide ApplyGate, MediaBase, SameKey, HasType, Assigned, BaseRule, GatesMet, Standing;
    var capability := Trim(rawCapability);
    var standing := MediaStanding(env, d, subject, Standing(env, d, subject, "media"));
    var base := MediaBase(env, d, subject, capability, standing, roomId);
    HasTypeIffAssigned(env, d, subject, "media", "block");
    GateFilters(env, d, subject, capability, standing, base);
    MediaBaseRule(env, d, subject, capability, roomId);
  }

  lemma MediaBaseRule(env: Env, d: Data, subject: string, capability: string, roomId: string)
    requires IsMedia(capability)
    ensures var standing := MediaStanding(env, d, subject, Standing(env, d, subject, "media"));
      && (IsPrivileged(standing) <==> PrivilegedInMedia(env, d, subject))
      && (MediaBase(env, d, subject, capability, standing, roomId).allow
          <==> BaseRule(env, d, subject, capability, roomId))
  {
  }

  lemma OtherRefinesRule(env: Env, d: Data, subject: string, rawCapability: string, roomId: string)
    requires !IsMedia(Trim(rawCapability))
    ensures Evaluation(env, d, subject, rawCapability, roomId).allow
       <==> Permitted(env, d, subject, Trim(rawCapability), roomId)
  {
    var capability := Trim(rawCapability);
    var standing := Standing(env, d, subject, CapabilityScope(capability));
    var open := capability == "relay.publish";
    HasTypeIffAssigned(env, d, subject, CapabilityScope(capability), "block");
    GateFilters(env, d, subject, capability, standing,
      Verdict(open, if open then "open_publish" else "unknown_capability", standing, capability));
  }

  /** `Evaluate` allows exactly what the rule permits. */
  lemma EvaluateRefinesRule(env: Env, d: Data, subject: string, rawCapability: string, roomId: string)
    ensures Evaluation(env, d, subject, rawCapability, roomId).allow
       <==> Permitted(env, d, subject, Trim(rawCapability), roomId)
  {
    if IsMedia(Trim(rawCapability)) {
      MediaRefinesRule(env, d, subject, rawCapability, roomId);
    } else {
      OtherRefinesRule(env, d, subject, rawCapability, roomId);
    }
  }

  // ----- What decisions are monotone in -----

  /** d' adds to d only proofs, and assignments that are no active blocks. */
  ghost predicate Relaxes(d: Data, d': Data) {
    && d'.standings == d.standings && d'.permissions == d.permissions && d'.gates == d.gates
    && (forall r :: r in d.proofs ==> r in d'.proofs)
    && (forall r :: r in d.policies ==> r in d'.policies)
    && (forall r :: r in d'.policies && r.policyType == "block" && !r.revoked ==> r in d.policies)
  }

  lemma SameStandings(env: Env, d: Data, d': Data, subject: string, scope: string)
    requires d'.standings == d.standings
    ensures Standing(env, d', subject, scope) == Standing(env, d, subject, scope)
  {
    var aliases := Aliases(env.keys, subject);
    assert StandingAnswers(d', aliases, scope) == StandingAnswers(d, aliases, scope);
  }

  lemma SamePermissions(env: Env, d: Data, d': Data, subject: string, roomId: string)
    requires d'.permissions == d.permissions
    ensures Permission(env, d', subject, roomId) == Permission(env, d, subject, roomId)
  {
    var aliases := Aliases(env.keys, subject);
    assert PermissionAnswers(d', aliases, roomId) == PermissionAnswers(d, aliases, roomId);
  }

  lemma RelaxedAssignments(env: Env, d: Data, d': Data, subject: string, scope: string)
    requires Relaxes(d, d')
    ensures Assigned(env, d', subject, scope, "block") ==> Assigned(env, d, subject, scope, "block")
    ensures Assigned(env, d, subject, scope, "guest") ==> Assigned(env, d', subject, scope, "guest")
  {
  }

  lemma RelaxedProofs(env: Env, d: Data, d': Data, subject: string, proofType: string)
    requires Relaxes(d, d') && Proven(env, d, subject, proofType)
    ensures Proven(env, d', subject, proofType)
  {
  }

  lemma SamePrivilege(env: Env, d: Data, d': Data, subject: string)
    requires d'.standings == d.standings
    ensures PrivilegedInMedia(env, d', subject) == PrivilegedInMedia(env, d, subject)
  {
    SameStandings(env, d, d', subject, "media");
    SameStandings(env, d, d', subject, DEFAULT_SCOPE);
    SameStandings(env, d, d', subject, "relay.admin");
  }

  lemma RelaxedGates(env: Env, d: Data, d': Data, subject: string, capability: string)
    requires Relaxes(d, d') && GatesMet(env, d, subject, capability)
    ensures GatesMet(env, d', subject, capability)
  {
    var gate := EffectiveGate(env, d, capability);
    assert EffectiveGate(env, d', capability) == gate;
    if gate.Some? {
      forall t | t in gate.value.proofTypes ensures Proven(env, d', subject, t) {
        RelaxedProofs(env, d, d', subject, t);
      }
      SameStandings(env, d, d', subject, CapabilityScope(capability));
      SamePrivilege(env, d, d', subject);
      RelaxedAssignments(env, d, d', subject, CapabilityScope(capability));
    }
  }

  lemma RelaxedPermits(env: Env, d: Data, d': Data, subject: string, capability: string, roomId: string)
    requires Relaxes(d, d') && Permitted(env, d, subject, capability, roomId)
    ensures Permitted(env, d', subject, capability, roomId)
  {
    SameStandings(env, d, d', subject, CapabilityScope(capability));
    SameStandings(env, d, d', subject, "relay.admin");
    SamePrivilege(env, d, d', subject);
    SamePermissions(env, d, d', subject, roomId);
    RelaxedAssignments(env, d, d', subject, CapabilityScope(capability));
    if GatesMet(env, d, subject, capability) { RelaxedGates(env, d, d', subject, capability); }
  }

  /** Adding proofs and guest records, any number of them, never turns an allow into a deny. */
  lemma ProofsAndGuestsNeverHurt(env: Env, d: Data, d': Data, subject: string, rawCapability: string, roomId: string)
    requires Relaxes(d, d')
    ensures Evaluation(env, d, subject, rawCapability, roomId).allow ==>
      Evaluation(env, d', subject, rawCapability, roomId).allow
  {
    hide Evaluation, Permitted, Relaxes;
    EvaluateRefinesRule(env, d, subject, rawCapability, roomId);
    EvaluateRefinesRule(env, d', subject, rawCapability, roomId);
    if Permitted(env, d, subject, Trim(rawCapability), roomId) {
      RelaxedPermits(env, d, d', subject, Trim(rawCapability), roomId);
    }
  }

  lemma AddingProofRelaxes(d: Data, r: ProofVerification, now: int)
    ensures Relaxes(d, AddProof(d, r, now))
  {
  }

  lemma AddingAssignmentRelaxes(d: Data, r: PolicyAssignment, now: int)
    ensures Relaxes(d, AddPolicy(d, r, now)) <== r.policyType != "block" || r.revoked
  {
  }

  /** A block is permanent: nothing that is appended later, a revocation included, lifts it. */
  lemma BlockIsPermanent(env: Env, d: Data, d': Data, subject: string, rawCapability: string, roomId: string)
    requires d.policies <= d'.policies
    requires Assigned(env, d, subject, CapabilityScope(Trim(rawCapability)), "block")
    ensures Evaluation(env, d', subject, rawCapability, roomId).allow
       <==> Trim(rawCapability) != "" && SameKey(env.keys, subject, env.operator)
  {
    EvaluateRefinesRule(env, d', subject, rawCapability, roomId);
    assert forall r :: r in d.policies ==> r in d'.policies;
  }

  // ----- Agreement with the token service -----

  /** Whoever `Evaluate` lets join a room is granted a token: the token handler never fails for
      want of a permission. */
  lemma JoinImpliesToken(env: Env, d: Data, subject: string, roomId: string)
    ensures Evaluation(env, d, subject, "media.join", roomId).allow ==> RoomGrants(env, d, subject, roomId).Granted?
  {
    hide Evaluation;
    EvaluateRefinesRule(env, d, subject, "media.join", roomId);
    assert Trim("media.join") == "media.join";
    PrivilegedScopes(env, d, subject);
  }

  lemma PrivilegedScopes(env: Env, d: Data, subject: string)
    ensures HasPrivilegedAccess(env, d, subject) <==> PrivilegedInMedia(env, d, subject)
  {
    assert PRIVILEGED_SCOPES[0] == "media" && PRIVILEGED_SCOPES[1] == DEFAULT_SCOPE;
    assert PRIVILEGED_SCOPES[2] == "relay.admin";
  }

  /** The rights a room token's publish flag should be backed by. */
  ghost predicate PublishBacked(env: Env, d: Data, subject: string, roomId: string) {
    || SameKey(env.keys, subject, env.operator)
    || (GatesMet(env, d, subject, "media.publish")
        && (PrivilegedInMedia(env, d, subject) || Permission(env, d, subject, roomId).Some?))
  }

  lemma PublishRule(env: Env, d: Data, subject: string, roomId: string)
    requires Permitted(env, d, subject, "media.join", roomId)
    ensures Permitted(env, d, subject, "media.publish", roomId)
       <==> RoomGrants(env, d, subject, roomId).Granted? && RoomGrants(env, d, subject, roomId).canPublish
            && PublishBacked(env, d, subject, roomId)
  {
    PrivilegedScopes(env, d, subject);
  }

  /** For a subject who may join, the token lets it publish whenever `Evaluate` allows publishing.
      The converse holds exactly for the operator, and for those who meet the publish gate and are
      privileged or have a room permission of their own: a room's default grant can carry the right
      to publish, which `Evaluate` never derives from it. */
  lemma PublishRightsAgree(env: Env, d: Data, subject: string, roomId: string)
    ensures Evaluation(env, d, subject, "media.join", roomId).allow ==>
      && RoomGrants(env, d, subject, roomId).Granted?
      && (Evaluation(env, d, subject, "media.publish", roomId).allow
          <==> RoomGrants(env, d, subject, roomId).canPublish && PublishBacked(env, d, subject, roomId))
  {
    hide Evaluation, Permitted, RoomGrants, PublishBacked;
    EvaluateRefinesRule(env, d, subject, "media.join", roomId);
    EvaluateRefinesRule(env, d, subject, "media.publish", roomId);
    assert Trim("media.join") == "media.join" && Trim("media.publish") == "media.publish";
    JoinImpliesToken(env, d, subject, roomId);
    if Permitted(env, d, subject, "media.join", roomId) { PublishRule(env, d, subject, roomId); }
  }

  /** The mismatch is real: in an empty store, a default grant with the right to publish lets every
      ordinary subject join and puts that right into its token, while `Evaluate` denies it. */
  lemma DefaultGrantPublishes(env: Env, subject: string, roomId: string)
    requires !SameKey(env.keys, subject, env.operator) && env.mediaJoinProofs == []
    requires env.roomDefaults.Some? && env.roomDefaults.value(roomId) == RoomDefaults(true, true, true)
    ensures Evaluation(env, EMPTY, subject, "media.join", roomId).allow
    ensures RoomGrants(env, EMPTY, subject, roomId) == Granted(true, true)
    ensures !Evaluation(env, EMPTY, subject, "media.publish", roomId).allow
  {
    hide Evaluation, Permitted, Standing, Permission;
    DefaultGrantRule(env, subject, roomId);
    EmptyStore(env, subject, roomId);
    assert Trim("media.join") == "media.join" && Trim("media.publish") == "media.publish";
    EvaluateRefinesRule(env, EMPTY, subject, "media.join", roomId);
    EvaluateRefinesRule(env, EMPTY, subject, "media.publish", roomId);
    PrivilegedScopes(env, EMPTY, subject);
  }

  lemma DefaultGrantRule(env: Env, subject: string, roomId: string)
    requires !SameKey(env.keys, subject, env.operator) && env.mediaJoinProofs == []
    requires env.roomDefaults.Some? && env.roomDefaults.value(roomId) == RoomDefaults(true, true, true)
    ensures Permitted(env, EMPTY, subject, "media.join", roomId)
      && !Permitted(env, EMPTY, subject, "media.publish", roomId)
  {
    EmptyStore(env, subject, roomId);
    hide Standing, Permission;
  }

  lemma EmptyStore(env: Env, subject: string, roomId: string)
    ensures forall scope :: Standing(env, EMPTY, subject, scope) == "guest"
    ensures Permission(env, EMPTY, subject, roomId).None?
  {
    forall scope ensures Standing(env, EMPTY, subject, scope) == "guest" {
      NewestWins(StandingAnswers(EMPTY, Aliases(env.keys, subject), scope), StandingTime);
    }
    NewestWins(PermissionAnswers(EMPTY, Aliases(env.keys, subject), roomId), PermissionTime);
  }
}
