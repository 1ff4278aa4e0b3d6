/**
 What standings, permissions, gates and aliases are, told from the stored records; that media rights rest on
 a permission record of the room itself; and which reason every decision gives.
 */
module PolicyRecords {
  import opened MemoryStore
  import opened Policy
  import opened PolicyLaws
  import opened RoomTokens
  import opened Text

  // ----- One alias -----

  predicate StandingFits(r: StandingRecord, alias: string, scope: string) {
    r.subject == alias && r.scope == scope && !r.revoked
  }

  ghost predicate LastStanding(d: Data, alias: string, scope: string, r: StandingRecord) {
    exists k :: 0 <= k < |d.standings| && d.standings[k] == r && StandingFits(r, alias, scope)
      && forall j :: k < j < |d.standings| ==> !StandingFits(d.standings[j], alias, scope)
  }

  predicate NoStanding(d: Data, alias: string, scope: string) {
    forall k :: 0 <= k < |d.standings| ==> !StandingFits(d.standings[k], alias, scope)
  }

  /** The last unrevoked record of the alias in the scope; the last one in the scope "relay" if there is none. */
  ghost predicate StandingOfAlias(d: Data, alias: string, scope: string, r: StandingRecord) {
    var wanted := if scope == "" then "relay" else scope;
    LastStanding(d, alias, wanted, r) || (NoStanding(d, alias, wanted) && LastStanding(d, alias, "relay", r))
  }

  lemma LastStandingIsLatest(d: Data, alias: string, scope: string, r: StandingRecord)
    ensures LatestWhere(d.standings, StandingIn(alias, scope)) == Some(r) <==> LastStanding(d, alias, scope, r)
    ensures LatestWhere(d.standings, StandingIn(alias, scope)).None? <==> NoStanding(d, alias, scope)
  {
    var p := StandingIn(alias, scope);
    LatestWhereIsLatest(d.standings, p);
    assert forall x :: p(x) == StandingFits(x, alias, scope);
  }

  lemma StandingOfIsOfAlias(d: Data, alias: string, scope: string, r: StandingRecord)
    ensures StandingOf(d, alias, scope) == Some(r) <==> StandingOfAlias(d, alias, scope, r)
  {
    hide LatestWhere, StandingIn, LastStanding, NoStanding;
    var wanted := DefaultScope(scope);
    LastStandingIsLatest(d, alias, wanted, r);
    LastStandingIsLatest(d, alias, "relay", r);
    var found := LatestWhere(d.standings, StandingIn(alias, wanted));
    if found.Some? { LastStandingIsLatest(d, alias, wanted, found.value); }
  }

  predicate PermissionFits(r: RoomPermission, alias: string, roomId: string) {
    r.subject == alias && r.roomId == roomId && !r.revoked
  }

  /** The last unrevoked permission of the alias for the room. */
  ghost predicate PermissionOfAlias(d: Data, alias: string, roomId: string, r: RoomPermission) {
    exists k :: 0 <= k < |d.permissions| && d.permissions[k] == r && PermissionFits(r, alias, roomId)
      && forall j :: k < j < |d.permissions| ==> !PermissionFits(d.permissions[j], alias, roomId)
  }

  lemma LatestPermissionIsOfAlias(d: Data, alias: string, roomId: string, r: RoomPermission)
    ensures LatestWhere(d.permissions, PermissionFor(alias, roomId)) == Some(r)
       <==> PermissionOfAlias(d, alias, roomId, r)
  {
    var p := PermissionFor(alias, roomId);
    LatestWhereIsLatest(d.permissions, p);
    assert forall x :: p(x) == PermissionFits(x, alias, roomId);
  }

  // ----- All aliases of a subject -----

  /** The newest answer is the one that wins. */
  lemma NewestIff<R(!new)>(answers: seq<Option<R>>, time: R -> int, r: R)
    ensures Newest(answers, time) == Some(r) <==>
      exists i :: 0 <= i < |answers| && answers[i] == Some(r) && Wins(answers, time, i)
  {
    hide Newest;
    NewestWins(answers, time);
    if i :| 0 <= i < |answers| && answers[i] == Some(r) && Wins(answers, time, i) {
      WinnerIsUnique(answers, time, i);
    }
  }

  /** r is newer than the records of the aliases before the i-th, and no older than those after it. */
  ghost predicate NewerStanding(d: Data, aliases: seq<string>, scope: string, r: StandingRecord, i: nat)
    requires i < |aliases|
  {
    && (forall j, r' :: 0 <= j < i && StandingOfAlias(d, aliases[j], scope, r') ==> r'.createdAt < r.createdAt)
    && (forall j, r' :: i < j < |aliases| && StandingOfAlias(d, aliases[j], scope, r') ==> r'.createdAt <= r.createdAt)
  }

  ghost predicate StandingOfSubject(env: Env, d: Data, subject: string, scope: string, r: StandingRecord) {
    var aliases := Aliases(env.keys, subject);
    exists i :: 0 <= i < |aliases| && StandingOfAlias(d, aliases[i], scope, r) && NewerStanding(d, aliases, scope, r, i)
  }

  lemma StandingAnswersAre(d: Data, aliases: seq<string>, scope: string, i: nat, r: StandingRecord)
    requires i < |aliases|
    ensures StandingAnswers(d, aliases, scope)[i] == Some(r) <==> StandingOfAlias(d, aliases[i], scope, r)
  {
    hide StandingOfAlias, StandingOf;
    StandingOfIsOfAlias(d, aliases[i], scope, r);
  }

  lemma NewerStandingWins(d: Data, aliases: seq<string>, scope: string, i: nat, r: StandingRecord)
    requires i < |aliases| && StandingAnswers(d, aliases, scope)[i] == Some(r)
    ensures Wins(StandingAnswers(d, aliases, scope), StandingTime, i) <==> NewerStanding(d, aliases, scope, r, i)
  {
    hide StandingOfAlias, StandingAnswers;
    var answers := StandingAnswers(d, aliases, scope);
    if NewerStanding(d, aliases, scope, r, i) {
      forall j | 0 <= j < |answers| && answers[j].Some?
        ensures StandingOfAlias(d, aliases[j], scope, answers[j].value)
      {
        StandingAnswersAre(d, aliases, scope, j, answers[j].value);
      }
    }
    if Wins(answers, StandingTime, i) {
      forall j, r': StandingRecord | 0 <= j < |aliases| && StandingOfAlias(d, aliases[j], scope, r')
        ensures (j < i ==> r'.createdAt < r.createdAt) && (i < j ==> r'.createdAt <= r.createdAt)
      {
        StandingAnswersAre(d, aliases, scope, j, r');
        assert answers[j].value == r' && answers[i].value == r;
        assert StandingTime(r') == r'.createdAt && StandingTime(r) == r.createdAt;
      }
    }
  }

  lemma StandingRecordIs(env: Env, d: Data, subject: string, scope: string, r: StandingRecord)
    ensures Newest(StandingAnswers(d, Aliases(env.keys, subject), scope), StandingTime) == Some(r)
       <==> StandingOfSubject(env, d, subject, scope, r)
  {
    hide Aliases, StandingAnswers, StandingOfAlias, Newest, Wins, NewerStanding;
    var aliases := Aliases(env.keys, subject);
    var answers := StandingAnswers(d, aliases, scope);
    NewestIff(answers, StandingTime, r);
    forall i | 0 <= i < |aliases|
      ensures answers[i] == Some(r) && Wins(answers, StandingTime, i)
        <==> StandingOfAlias(d, aliases[i], scope, r) && NewerStanding(d, aliases, scope, r, i)
    {
      StandingAnswersAre(d, aliases, scope, i, r);
      if answers[i] == Some(r) { NewerStandingWins(d, aliases, scope, i, r); }
    }
  }

  /** The standing of a subject is that of its newest record over all aliases, and guest without any. */
  lemma StandingIsRecorded(env: Env, d: Data, subject: string, scope: string)
    ensures forall r :: StandingOfSubject(env, d, subject, scope, r) ==> Standing(env, d, subject, scope) == r.standing
    ensures (forall r :: !StandingOfSubject(env, d, subject, scope, r)) ==> Standing(env, d, subject, scope) == "guest"
  {
    hide StandingOfSubject, Newest, Aliases;
    forall r: StandingRecord
      ensures Newest(StandingAnswers(d, Aliases(env.keys, subject), scope), StandingTime) == Some(r)
         <==> StandingOfSubject(env, d, subject, scope, r)
    {
      StandingRecordIs(env, d, subject, scope, r);
    }
  }

  /** r is newer than the records of the aliases before the i-th, and no older than those after it. */
  ghost predicate NewerPermission(d: Data, aliases: seq<string>, roomId: string, r: RoomPermission, i: nat)
    requires i < |aliases|
  {
    && (forall j, r' :: 0 <= j < i && PermissionOfAlias(d, aliases[j], roomId, r') ==> r'.createdAt < r.createdAt)
    && (forall j, r' :: i < j < |aliases| && PermissionOfAlias(d, aliases[j], roomId, r')
          ==> r'.createdAt <= r.createdAt)
  }

  ghost predicate PermissionOfSubject(env: Env, d: Data, subject: string, roomId: string, r: RoomPermission) {
    var aliases := Aliases(env.keys, subject);
    exists i :: 0 <= i < |aliases| &&
      PermissionOfAlias(d, aliases[i], roomId, r) && NewerPermission(d, aliases, roomId, r, i)
  }

  lemma PermissionAnswersAre(d: Data, aliases: seq<string>, roomId: string, i: nat, r: RoomPermission)
    requires i < |aliases|
    ensures PermissionAnswers(d, aliases, roomId)[i] == Some(r) <==> PermissionOfAlias(d, aliases[i], roomId, r)
  {
    hide PermissionOfAlias, LatestWhere;
    LatestPermissionIsOfAlias(d, aliases[i], roomId, r);
  }

  lemma NewerPermissionWins(d: Data, aliases: seq<string>, roomId: string, i: nat, r: RoomPermission)
    requires i < |aliases| && PermissionAnswers(d, aliases, roomId)[i] == Some(r)
    ensures Wins(PermissionAnswers(d, aliases, roomId), PermissionTime, i)
       <==> NewerPermission(d, aliases, roomId, r, i)
  {
    hide PermissionOfAlias, PermissionAnswers;
    var answers := PermissionAnswers(d, aliases, roomId);
    if NewerPermission(d, aliases, roomId, r, i) {
      forall j | 0 <= j < |answers| && answers[j].Some?
        ensures PermissionOfAlias(d, aliases[j], roomId, answers[j].value)
      {
        PermissionAnswersAre(d, aliases, roomId, j, answers[j].value);
      }
    }
    if Wins(answers, PermissionTime, i) {
      forall j, r': RoomPermission | 0 <= j < |aliases| && PermissionOfAlias(d, aliases[j], roomId, r')
        ensures (j < i ==> r'.createdAt < r.createdAt) && (i < j ==> r'.createdAt <= r.createdAt)
      {
        PermissionAnswersAre(d, aliases, roomId, j, r');
        assert answers[j].value == r' && answers[i].value == r;
        assert PermissionTime(r') == r'.createdAt && PermissionTime(r) == r.createdAt;
      }
    }
  }

  /** The permission of a subject in a room is its newest record for that room over all aliases. */
  lemma PermissionIsRecorded(env: Env, d: Data, subject: string, roomId: string, r: RoomPermission)
    ensures Permission(env, d, subject, roomId) == Some(r) <==> PermissionOfSubject(env, d, subject, roomId, r)
  {
    hide Aliases, PermissionAnswers, PermissionOfAlias, Newest, Wins, NewerPermission;
    var aliases := Aliases(env.keys, subject);
    var answers := PermissionAnswers(d, aliases, roomId);
    NewestIff(answers, PermissionTime, r);
    forall i | 0 <= i < |aliases|
      ensures answers[i] == Some(r) && Wins(answers, PermissionTime, i)
        <==> PermissionOfAlias(d, aliases[i], roomId, r) && NewerPermission(d, aliases, roomId, r, i)
    {
      PermissionAnswersAre(d, aliases, roomId, i, r);
      if answers[i] == Some(r) { NewerPermissionWins(d, aliases, roomId, i, r); }
    }
  }

  // ----- Rights in a room rest on a record for the room -----

  /** The subject has a right in the room by its own newest permission record for this very room: a stored,
      unrevoked record of one of its aliases, after which none of that alias for the room was stored. */
  ghost predicate HasRoomRecord(env: Env, d: Data, subject: string, roomId: string, r: RoomPermission) {
    && r in d.permissions && r.subject in Aliases(env.keys, subject) && r.roomId == roomId && !r.revoked
    && PermissionOfSubject(env, d, subject, roomId, r)
  }

  lemma PermissionHasRecord(env: Env, d: Data, subject: string, roomId: string)
    ensures Permission(env, d, subject, roomId).Some? ==>
      HasRoomRecord(env, d, subject, roomId, Permission(env, d, subject, roomId).value)
  {
    hide Aliases, Permission;
    var permission := Permission(env, d, subject, roomId);
    if permission.Some? {
      var r, aliases := permission.value, Aliases(env.keys, subject);
      PermissionIsRecorded(env, d, subject, roomId, r);
      var i :| 0 <= i < |aliases| && PermissionOfAlias(d, aliases[i], roomId, r);
    }
  }

  predicate DefaultListens(env: Env, roomId: string) {
    env.roomDefaults.Some? && env.roomDefaults.value(roomId).ok && env.roomDefaults.value(roomId).canSubscribe
  }

  /** Without privilege, a media capability is allowed only by a record for this very room that carries the
      right; joining also by a default grant, when the subject has no record for the room. */
  lemma MediaNeedsRoomRecord(env: Env, d: Data, subject: string, rawCapability: string, roomId: string)
    requires Trim(rawCapability) in {"media.join", "media.publish"}
    requires Evaluation(env, d, subject, rawCapability, roomId).allow
    requires !SameKey(env.keys, subject, env.operator) && !PrivilegedInMedia(env, d, subject)
    ensures
      || (exists r :: HasRoomRecord(env, d, subject, roomId, r)
            && (if Trim(rawCapability) == "media.join" then r.canJoin else r.canPublish))
      || (Trim(rawCapability) == "media.join" && DefaultListens(env, roomId)
            && forall r :: !PermissionOfSubject(env, d, subject, roomId, r))
  {
    hide Evaluation, Permission, HasRoomRecord, GatesMet, SameKey, PrivilegedInMedia, Standing, Assigned;
    EvaluateRefinesRule(env, d, subject, rawCapability, roomId);
    PermissionHasRecord(env, d, subject, roomId);
    NoRecordNoPermission(env, d, subject, roomId);
  }

  lemma NoRecordNoPermission(env: Env, d: Data, subject: string, roomId: string)
    ensures Permission(env, d, subject, roomId).None? <==> forall r :: !PermissionOfSubject(env, d, subject, roomId, r)
  {
    hide Permission, PermissionOfSubject;
    forall r: RoomPermission
      ensures Permission(env, d, subject, roomId) == Some(r) <==> PermissionOfSubject(env, d, subject, roomId, r)
    {
      PermissionIsRecorded(env, d, subject, roomId, r);
    }
    if Permission(env, d, subject, roomId).Some? {
      assert PermissionOfSubject(env, d, subject, roomId, Permission(env, d, subject, roomId).value);
    }
  }

  /** A room token carries full rights for the operator and the privileged; the rights of the subject's own
      record for the room; the default grant of the room when there is no record; and is refused without both. */
  lemma GrantsAreRecorded(env: Env, d: Data, subject: string, roomId: string)
    ensures var grant := RoomGrants(env, d, subject, roomId);
      var full := SameKey(env.keys, subject, env.operator) || PrivilegedInMedia(env, d, subject);
      && (full ==> grant == Granted(true, true))
      && (forall r :: !full && PermissionOfSubject(env, d, subject, roomId, r) ==>
            grant == Granted(r.canPublish, r.canSubscribe))
      && (!full && (forall r :: !PermissionOfSubject(env, d, subject, roomId, r)) ==>
            if env.roomDefaults.Some? && env.roomDefaults.value(roomId).ok then
              var rights := env.roomDefaults.value(roomId);
              grant == Granted(rights.canPublish, rights.canSubscribe)
            else grant == PermissionRequired)
  {
    hide Permission, PermissionOfSubject, SameKey, PrivilegedInMedia, HasPrivilegedAccess;
    PrivilegedScopes(env, d, subject);
    NoRecordNoPermission(env, d, subject, roomId);
    forall r: RoomPermission
      ensures Permission(env, d, subject, roomId) == Some(r) <==> PermissionOfSubject(env, d, subject, roomId, r)
    {
      PermissionIsRecorded(env, d, subject, roomId, r);
    }
  }

  // ----- Gates -----

  /** Which scope a capability is judged in. */
  lemma ScopesOfCapabilities(capability: string)
    ensures CapabilityScope(capability)
         == if capability == "relay.admin" then "relay.admin"
            else if capability in {"media.join", "media.publish"} then "media"
            else "relay"
  {
  }

  predicate GateFits(r: GatePolicy, capability: string, scope: string) {
    r.capability == capability && !r.revoked && r.scope in {scope, "relay"}
  }

  /** The last unrevoked gate policy for the capability, in its own scope or in the scope "relay". */
  ghost predicate LastGate(d: Data, capability: string, scope: string, r: GatePolicy) {
    exists k :: 0 <= k < |d.gates| && d.gates[k] == r && GateFits(r, capability, scope)
      && forall j :: k < j < |d.gates| ==> !GateFits(d.gates[j], capability, scope)
  }

  predicate NoGate(d: Data, capability: string, scope: string) {
    forall k :: 0 <= k < |d.gates| ==> !GateFits(d.gates[k], capability, scope)
  }

  /** The gate in force: the last one stored; else, for joining media, the configured proofs and nothing more. */
  lemma GateIsRecorded(env: Env, d: Data, capability: string, r: GatePolicy)
    ensures var scope, gate := CapabilityScope(capability), EffectiveGate(env, d, capability);
      && (LastGate(d, capability, scope, r) ==> gate == Some(r))
      && (NoGate(d, capability, scope) ==>
            if capability == "media.join" && env.mediaJoinProofs != []
            then gate.Some? && !gate.value.requireGuest && gate.value.proofTypes == env.mediaJoinProofs
            else gate.None?)
      && (gate.Some? && !NoGate(d, capability, scope) ==> LastGate(d, capability, scope, gate.value))
  {
    var scope := CapabilityScope(capability);
    var p := GateFor(capability, scope);
    LatestWhereIsLatest(d.gates, p);
    assert forall x :: p(x) == GateFits(x, capability, scope);
  }

  // ----- Aliases -----

  lemma AddAliasEffect(aliases: seq<string>, value: string)
    ensures aliases <= AddAlias(aliases, value)
    ensures forall a :: a in AddAlias(aliases, value) ==> a in aliases || (a == Trim(value) && a != "")
    ensures Trim(value) != "" ==> exists a :: a in AddAlias(aliases, value) && ToLower(a) == ToLower(Trim(value))
    ensures DistinctIgnoringCase(aliases) ==> DistinctIgnoringCase(AddAlias(aliases, value))
  {
    hide ToLower, Trim;
    var after := AddAlias(aliases, value);
    if after != aliases {
      assert after[|aliases|] == Trim(value);
      assert Trim(value) in after;
    }
  }

  ghost predicate DistinctIgnoringCase(aliases: seq<string>) {
    forall i, j :: 0 <= i < j < |aliases| ==> ToLower(aliases[i]) != ToLower(aliases[j])
  }

  ghost predicate AliasFor(aliases: seq<string>, value: string) {
    exists a :: a in aliases && ToLower(a) == ToLower(Trim(value))
  }

  lemma AliasForKept(aliases: seq<string>, value: string, more: string)
    requires AliasFor(aliases, value)
    ensures AliasFor(AddAlias(aliases, more), value)
  {
    hide ToLower, Trim;
    AddAliasEffect(aliases, more);
    assert forall a :: a in aliases ==> a in AddAlias(aliases, more);
  }

  /** The aliases of a key: its canonical form, its npub form and its given spelling, up to case, each once,
      and nothing else; none for a blank key. */
  lemma AliasesOfKey(keys: Keys, pubkey: string)
    ensures var aliases, canonical, npub := Aliases(keys, pubkey), Canonicalize(keys, pubkey),
        keys.encodeNpub(Canonicalize(keys, pubkey));
      && (canonical == "" ==> aliases == [])
      && (canonical != "" ==> DistinctIgnoringCase(aliases))
      && (canonical != "" && Trim(canonical) != "" ==> AliasFor(aliases, canonical))
      && (canonical != "" && npub.Some? && Trim(ToLower(npub.value)) != "" ==> AliasFor(aliases, ToLower(npub.value)))
      && (canonical != "" && Trim(pubkey) != "" ==> AliasFor(aliases, pubkey))
      && (forall a :: a in aliases ==>
            a == Trim(canonical) || a == Trim(pubkey) || (npub.Some? && a == Trim(ToLower(npub.value))))
  {
    hide Canonicalize, ToLower, Trim, AddAlias, DistinctIgnoringCase, AliasFor;
    var canonical := Canonicalize(keys, pubkey);
    var npub := keys.encodeNpub(canonical);
    if canonical != "" {
      var first := AddAlias([], canonical);
      var second := if npub.Some? then AddAlias(first, ToLower(npub.value)) else first;
      AddAliasStep([], canonical);
      if npub.Some? { AddAliasStep(first, ToLower(npub.value)); }
      AddAliasStep(second, pubkey);
      NoAliases();
      if Trim(canonical) != "" {
        if npub.Some? { AliasForKept(first, canonical, ToLower(npub.value)); }
        AliasForKept(second, canonical, pubkey);
      }
      if npub.Some? && Trim(ToLower(npub.value)) != "" { AliasForKept(second, ToLower(npub.value), pubkey); }
    }
  }

  lemma NoAliases()
    ensures DistinctIgnoringCase([])
  {
  }

  lemma AddAliasStep(aliases: seq<string>, value: string)
    ensures forall a :: a in AddAlias(aliases, value) ==> a in aliases || a == Trim(value)
    ensures Trim(value) != "" ==> AliasFor(AddAlias(aliases, value), value)
    ensures DistinctIgnoringCase(aliases) ==> DistinctIgnoringCase(AddAlias(aliases, value))
  {
    AddAliasEffect(aliases, value);
  }

  /** A blank key is nobody: it has no aliases and is the same as no key, so a service without an operator
      key has no operator. */
  lemma BlankIsNobody(keys: Keys, blank: string, other: string)
    requires Blank(blank)
    ensures Aliases(keys, blank) == [] && !SameKey(keys, blank, other) && !SameKey(keys, other, blank)
  {
    var _, _ := TrimCutsBlanks(blank);
  }

  /** What is neither blank nor the npub form of a key is kept, trimmed and lower-cased. */
  lemma OtherKeysAreKept(keys: Keys, pubkey: string)
    requires !Blank(pubkey) && (keys.validHex(TrimLower(pubkey)) || !("npub1" <= TrimLower(pubkey)))
    ensures Canonicalize(keys, pubkey) == TrimLower(pubkey)
  {
    var _, _ := TrimCutsBlanks(pubkey);
  }

  /** A hex key and its npub form, in whatever case and padding, are the same key. */
  lemma HexAndNpubAgree(keys: Keys, hex: string, npub: string, spelling: string)
    requires hex != "" && TrimLower(hex) == hex && Trim(hex) == hex && keys.validHex(hex)
    requires Trim(npub) != "" && "npub1" <= TrimLower(npub) && !keys.validHex(TrimLower(npub))
    requires keys.decodeNpub(TrimLower(npub)) == Some(hex)
    requires Trim(spelling) != "" && TrimLower(spelling) == TrimLower(npub)
    ensures Canonicalize(keys, npub) == Canonicalize(keys, spelling) == Canonicalize(keys, hex) == hex
    ensures SameKey(keys, npub, hex) && SameKey(keys, spelling, hex)
  {
    hide Trim, ToLower;
  }

  // ----- Reasons -----

  ghost predicate ProofMissing(env: Env, d: Data, subject: string, gate: GatePolicy) {
    exists t :: t in gate.proofTypes && !Proven(env, d, subject, t)
  }

  /** The reason of a decision that reaches the gates. */
  ghost function GateReason(env: Env, d: Data, subject: string, capability: string, base: string): string {
    match EffectiveGate(env, d, capability)
    case None => base
    case Some(gate) =>
      if gate.requireGuest && !GuestListed(env, d, subject, capability) then "not_allowlisted"
      else if ProofMissing(env, d, subject, gate) then "required_proof"
      else if gate.requireGuest && gate.proofTypes != [] then "gate_stack_satisfied"
      else if gate.requireGuest then "allowlisted"
      else if gate.proofTypes != [] then "proof_verified"
      else base
  }

  /** Whether the room would let the subject join or publish, gates aside, and why. */
  ghost function MediaAnswer(env: Env, d: Data, subject: string, capability: string, roomId: string): (bool, string) {
    var permission := Permission(env, d, subject, roomId);
    if PrivilegedInMedia(env, d, subject) then (true, "local_standing")
    else if permission.Some? then
      if (if capability == "media.join" then permission.value.canJoin else permission.value.canPublish)
      then (true, "room_permission")
      else (false, "room_permission_denied")
    else if capability == "media.join" && DefaultListens(env, roomId) then (true, "room_default_listener")
    else (false, "room_permission_missing")
  }

  /** Why a capability is allowed or denied. */
  ghost function Reason(env: Env, d: Data, subject: string, capability: string, roomId: string): string {
    var looked := Standing(env, d, subject, CapabilityScope(capability));
    if capability == "" then "missing_capability"
    else if SameKey(env.keys, subject, env.operator) then "bootstrap_operator"
    else if looked == "banned" || (looked == "suspended" && capability != "read") then "standing_blocks_capability"
    else if Assigned(env, d, subject, CapabilityScope(capability), "block") then "block_policy"
    else if capability == "relay.admin" then
      if StandsPrivileged(env, d, subject, "relay.admin") then "local_standing" else "insufficient_standing"
    else if capability in {"media.join", "media.publish"} then
      var (allowed, word) := MediaAnswer(env, d, subject, capability, roomId);
      if allowed then GateReason(env, d, subject, capability, word) else word
    else
      GateReason(env, d, subject, capability,
                 if capability == "relay.publish" then "open_publish" else "unknown_capability")
  }

  lemma GateGivesReason(env: Env, d: Data, subject: string, capability: string, standing: string, base: Decision)
    requires var looked := Standing(env, d, subject, CapabilityScope(capability));
      standing == if IsMedia(capability) then MediaStanding(env, d, subject, looked) else looked
    ensures var assignments := Assignments(env, d, subject, CapabilityScope(capability));
      ApplyGate(env, d, subject, capability, standing, assignments, base).reason
      == GateReason(env, d, subject, capability, base.reason)
  {
    hide GuestListed, OnGuestList, Assignments, MediaStanding, Standing, Proven, AllVerified;
    hide EffectiveGate, FirstMissing;
    var gate := EffectiveGate(env, d, capability);
    if gate.Some? {
      OnListIffListed(env, d, subject, capability, Standing(env, d, subject, CapabilityScope(capability)), standing);
      ProofGatesMet(env, d, subject, gate.value.proofTypes);
    }
  }

  /** The base decision of the media capabilities, with its reason. */
  lemma MediaBaseReason(env: Env, d: Data, subject: string, capability: string, roomId: string)
    requires capability in {"media.join", "media.publish"}
    ensures var standing := MediaStanding(env, d, subject, Standing(env, d, subject, "media"));
      var base := MediaBase(env, d, subject, capability, standing, roomId);
      MediaAnswer(env, d, subject, capability, roomId) == (base.allow, base.reason)
  {
    hide Standing, Permission;
  }

  lemma MediaWords(capability: string)
    requires capability in {"media.join", "media.publish"}
    ensures IsMedia(capability) && CapabilityScope(capability) == "media"
    ensures capability != "" && capability != "read" && capability != "relay.admin" && capability != "relay.publish"
  {
  }

  lemma MediaReason(env: Env, d: Data, subject: string, capability: string, roomId: string)
    requires capability in {"media.join", "media.publish"}
    ensures var looked := Standing(env, d, subject, "media");
      Decide(env, d, subject, capability, roomId, looked, MediaStanding(env, d, subject, looked),
             Assignments(env, d, subject, "media")).reason
      == Reason(env, d, subject, capability, roomId)
  {
    hide ApplyGate, GateReason, SameKey, HasType, Assigned, Standing, MediaStanding, MediaBase, MediaAnswer;
    hide CapabilityScope, IsMedia, Assignments, AdminAccess, StandsPrivileged;
    MediaWords(capability);
    var standing := MediaStanding(env, d, subject, Standing(env, d, subject, "media"));
    HasTypeIffAssigned(env, d, subject, "media", "block");
    MediaBaseReason(env, d, subject, capability, roomId);
    GateGivesReason(env, d, subject, capability, standing, MediaBase(env, d, subject, capability, standing, roomId));
  }

  lemma OtherReason(env: Env, d: Data, subject: string, rawCapability: string, roomId: string)
    requires Trim(rawCapability) !in {"media.join", "media.publish"}
    ensures Evaluation(env, d, subject, rawCapability, roomId).reason
         == Reason(env, d, subject, Trim(rawCapability), roomId)
  {
    hide ApplyGate, GateReason, SameKey, HasType, Assigned, Standing;
    var capability := Trim(rawCapability);
    var standing := Standing(env, d, subject, CapabilityScope(capability));
    var open := capability == "relay.publish";
    HasTypeIffAssigned(env, d, subject, CapabilityScope(capability), "block");
    GateGivesReason(env, d, subject, capability, standing,
      Verdict(open, if open then "open_publish" else "unknown_capability", standing, capability));
  }

  /** Every decision gives exactly the reason the records call for. */
  lemma ReasonsAreExact(env: Env, d: Data, subject: string, rawCapability: string, roomId: string)
    ensures Evaluation(env, d, subject, rawCapability, roomId).reason
         == Reason(env, d, subject, Trim(rawCapability), roomId)
  {
    hide Reason;
    if Trim(rawCapability) in {"media.join", "media.publish"} {
      MediaWords(Trim(rawCapability));
      MediaReason(env, d, subject, Trim(rawCapability), roomId);
    } else {
      OtherReason(env, d, subject, rawCapability, roomId);
    }
  }

  // ----- Gate reports -----

  /** Proof i is missing, has a name, and no missing proof before it has one. */
  ghost predicate FirstNamedMissing(gates: seq<GateStatus>, i: nat) {
    && i < |gates| && !gates[i].verified && gates[i].kind != ""
    && forall j :: 0 <= j < i && !gates[j].verified ==> gates[j].kind == ""
  }

  lemma {:induction false} FirstMissingIs(gates: seq<GateStatus>)
    ensures FirstMissing(gates) == "" <==> forall i :: 0 <= i < |gates| && !gates[i].verified ==> gates[i].kind == ""
    ensures FirstMissing(gates) != "" ==>
      exists i: nat :: FirstNamedMissing(gates, i) && gates[i].kind == FirstMissing(gates)
  {
    if gates != [] {
      var init := gates[..|gates| - 1];
      FirstMissingIs(init);
      if FirstMissing(init) != "" {
        var i: nat :| FirstNamedMissing(init, i) && init[i].kind == FirstMissing(init);
        assert FirstNamedMissing(gates, i) && gates[i] == init[i];
      } else if FirstMissing(gates) != "" {
        assert FirstNamedMissing(gates, |gates| - 1);
      }
    }
  }

  /** What a decision reports about a gate: the guest list first, when required, and nothing more when it is
      missed; then every proof in the order of the policy, each as the records have it. */
  lemma GatesAreReported(env: Env, d: Data, subject: string, capability: string, standing: string,
                         assignments: seq<PolicyAssignment>, base: Decision, gate: GatePolicy)
    requires gate.requireGuest || gate.proofTypes != []
    ensures var e := ThroughGate(env, d, subject, capability, standing, assignments, base, gate);
      var listed := OnGuestList(standing, assignments);
      e.gates
        == (if gate.requireGuest then [GateStatus("guest_list", listed)] else [])
         + (if gate.requireGuest && !listed then [] else ProofGates(env, d, subject, gate.proofTypes))
  {
    hide OnGuestList, AllVerified, FirstMissing;
    assert ProofGates(env, d, subject, gate.proofTypes) == [] <==> gate.proofTypes == [];
  }

  lemma FirstNamedIsUnique(gates: seq<GateStatus>, i: nat, k: nat)
    requires FirstNamedMissing(gates, i) && FirstNamedMissing(gates, k)
    ensures i == k
  {
  }

  /** A decision that misses proofs names the first missing one that has a name. */
  lemma FirstMissingIsNamed(env: Env, d: Data, subject: string, capability: string, standing: string,
                            assignments: seq<PolicyAssignment>, base: Decision, gate: GatePolicy, i: nat)
    requires gate.requireGuest ==> OnGuestList(standing, assignments)
    requires FirstNamedMissing(ProofGates(env, d, subject, gate.proofTypes), i)
    ensures var e := ThroughGate(env, d, subject, capability, standing, assignments, base, gate);
      && !e.allow && !e.proofRequirementMet && e.reason == "required_proof"
      && e.proofRequirement == gate.proofTypes[i] && !HasProof(env, d, subject, gate.proofTypes[i])
  {
    hide OnGuestList, FirstMissing, HasProof;
    var proofs := ProofGates(env, d, subject, gate.proofTypes);
    FirstMissingIs(proofs);
    var k: nat :| FirstNamedMissing(proofs, k) && proofs[k].kind == FirstMissing(proofs);
    FirstNamedIsUnique(proofs, i, k);
  }

  // ----- What else a decision reports -----

  /** A requirement is missed exactly when the reason says so, never by an allow, and named only then. */
  predicate ReportsRequirement(e: Decision) {
    && (e.proofRequirementMet <==> e.reason !in {"missing_capability", "not_allowlisted", "required_proof"})
    && (e.allow ==> e.proofRequirementMet)
    && (e.reason == "not_allowlisted" ==> e.proofRequirement == "guest_list")
    && (e.reason !in {"not_allowlisted", "required_proof"} ==> e.proofRequirement == "")
  }

  /** What a decision about the subject says of itself. */
  predicate Reports(e: Decision, capability: string, standing: string) {
    e.scope == capability && e.standing == standing && ReportsRequirement(e)
  }

  lemma VerdictReports(allow: bool, reason: string, standing: string, capability: string)
    requires reason !in {"missing_capability", "not_allowlisted", "required_proof"}
    ensures Reports(Verdict(allow, reason, standing, capability), capability, standing)
    ensures Verdict(allow, reason, standing, capability).proofRequirementMet
  {
  }

  lemma GateReports(env: Env, d: Data, subject: string, capability: string, standing: string,
                    assignments: seq<PolicyAssignment>, base: Decision)
    requires Reports(base, capability, standing) && base.proofRequirementMet
    ensures Reports(ApplyGate(env, d, subject, capability, standing, assignments, base), capability, standing)
  {
    hide EffectiveGate, OnGuestList, ProofGates, AllVerified, FirstMissing;
  }

  lemma MediaBaseReports(env: Env, d: Data, subject: string, capability: string, standing: string, roomId: string)
    ensures Reports(MediaBase(env, d, subject, capability, standing, roomId), capability, standing)
    ensures MediaBase(env, d, subject, capability, standing, roomId).proofRequirementMet
  {
    hide Permission, Reports, Verdict, IsPrivileged;
    VerdictReports(true, "local_standing", standing, capability);
    VerdictReports(true, "room_default_listener", standing, capability);
    VerdictReports(false, "room_permission_missing", standing, capability);
    VerdictReports(true, "room_permission", standing, capability);
    VerdictReports(false, "room_permission_denied", standing, capability);
  }

  /** The standing a decision shows: that of the scope; for media the first privileged one of three scopes. */
  function StandingShown(env: Env, d: Data, subject: string, capability: string): string {
    var looked := Standing(env, d, subject, CapabilityScope(capability));
    if capability == "" then "unknown"
    else if SameKey(env.keys, subject, env.operator) then "owner"
    else if looked == "banned" || looked == "suspended" || capability !in {"media.join", "media.publish"} then looked
    else if StandsPrivileged(env, d, subject, "media") then looked
    else if StandsPrivileged(env, d, subject, "relay") then Standing(env, d, subject, "relay")
    else if StandsPrivileged(env, d, subject, "relay.admin") then Standing(env, d, subject, "relay.admin")
    else looked
  }

  lemma MediaStandingShown(env: Env, d: Data, subject: string, capability: string)
    requires capability in {"media.join", "media.publish"} && !SameKey(env.keys, subject, env.operator)
    requires !DeniedByStanding(Standing(env, d, subject, "media"), capability)
    ensures StandingShown(env, d, subject, capability)
         == MediaStanding(env, d, subject, Standing(env, d, subject, "media"))
  {
    hide Standing, SameKey;
  }

  lemma MediaReports(env: Env, d: Data, subject: string, capability: string, roomId: string)
    requires capability in {"media.join", "media.publish"}
    ensures var looked := Standing(env, d, subject, "media");
      Reports(Decide(env, d, subject, capability, roomId, looked, MediaStanding(env, d, subject, looked),
                     Assignments(env, d, subject, "media")),
              capability, StandingShown(env, d, subject, capability))
  {
    var looked, assignments := Standing(env, d, subject, "media"), Assignments(env, d, subject, "media");
    var standing := MediaStanding(env, d, subject, looked);
    hide Reports, Verdict, SameKey, HasType, Standing, MediaStanding, MediaBase, ApplyGate, Assignments, AdminAccess;
    hide StandsPrivileged, CapabilityScope, IsMedia;
    MediaWords(capability);
    VerdictReports(true, "bootstrap_operator", "owner", capability);
    VerdictReports(false, "standing_blocks_capability", looked, capability);
    VerdictReports(false, "block_policy", standing, capability);
    if !SameKey(env.keys, subject, env.operator) && !DeniedByStanding(looked, capability) {
      MediaStandingShown(env, d, subject, capability);
    }
    var base := MediaBase(env, d, subject, capability, standing, roomId);
    MediaBaseReports(env, d, subject, capability, standing, roomId);
    GateReports(env, d, subject, capability, standing, assignments, base);
  }

  lemma OtherReports(env: Env, d: Data, subject: string, capability: string, roomId: string)
    requires capability !in {"", "media.join", "media.publish"}
    ensures var looked := Standing(env, d, subject, CapabilityScope(capability));
      Reports(Decide(env, d, subject, capability, roomId, looked, looked,
                     Assignments(env, d, subject, CapabilityScope(capability))),
              capability, StandingShown(env, d, subject, capability))
  {
    var looked := Standing(env, d, subject, CapabilityScope(capability));
    hide Reports, Verdict, SameKey, HasType, Standing, ApplyGate, Assignments, StandsPrivileged;
    VerdictReports(true, "bootstrap_operator", "owner", capability);
    VerdictReports(false, "standing_blocks_capability", looked, capability);
    VerdictReports(false, "block_policy", looked, capability);
    VerdictReports(true, "local_standing", looked, capability);
    VerdictReports(false, "insufficient_standing", looked, capability);
    var open := capability == "relay.publish";
    var base := Verdict(open, if open then "open_publish" else "unknown_capability", looked, capability);
    VerdictReports(open, if open then "open_publish" else "unknown_capability", looked, capability);
    GateReports(env, d, subject, capability, looked, Assignments(env, d, subject, CapabilityScope(capability)), base);
  }

  /** Every decision names the capability asked for, the standing it is based on, and what is missing. */
  lemma DecisionsReport(env: Env, d: Data, subject: string, rawCapability: string, roomId: string)
    ensures var capability := Trim(rawCapability);
      Reports(Evaluation(env, d, subject, rawCapability, roomId), capability,
              StandingShown(env, d, subject, capability))
  {
    var capability := Trim(rawCapability);
    hide Trim, Decide, Standing;
    if capability in {"media.join", "media.publish"} {
      MediaWords(capability);
      MediaReports(env, d, subject, capability, roomId);
    } else if capability != "" {
      OtherReports(env, d, subject, capability, roomId);
    } else {
      assert StandingShown(env, d, subject, "") == "unknown";
    }
  }
}
