/**
 Whole runs of the record store: what every sequence of Create calls keeps.
 */
module StoreRuns {
  import opened AuditCursor
  import opened MemoryStore
  import opened AuditPaging
  import opened Sorting
  import opened Text

  datatype Operation =
    | CreatePolicy(policy: PolicyAssignment)
    | CreateStanding(standing: StandingRecord)
    | CreatePermission(permission: RoomPermission)
    | CreateProof(proof: ProofVerification)
    | CreateGate(gate: GatePolicy)
    | CreatePin(pin: EditorialPin)
    | CreateAudit(audit: AuditEntry)

  datatype Timed = Timed(op: Operation, now: int)

  function Apply(d: Data, t: Timed): Data {
    match t.op
    case CreatePolicy(r) => AddPolicy(d, r, t.now)
    case CreateStanding(r) => AddStanding(d, r, t.now)
    case CreatePermission(r) => AddPermission(d, r, t.now)
    case CreateProof(r) => AddProof(d, r, t.now)
    case CreateGate(r) => AddGate(d, r, t.now)
    case CreatePin(r) => AddPin(d, r, t.now)
    case CreateAudit(r) => AddAudit(d, r, t.now)
  }

  function ApplyAll(d: Data, run: seq<Timed>): Data {
    if run == [] then d else Apply(ApplyAll(d, run[..|run| - 1]), run[|run| - 1])
  }

  /** Nothing is ever changed or removed. */
  lemma {:induction false} RunsOnlyAppend(d: Data, run: seq<Timed>)
    ensures var d' := ApplyAll(d, run);
      && d.policies <= d'.policies && d.standings <= d'.standings && d.permissions <= d'.permissions
      && d.proofs <= d'.proofs && d.gates <= d'.gates && d.pins <= d'.pins && d.audits <= d'.audits
      && d'.nextId == d.nextId + |run|
  {
    if run != [] { RunsOnlyAppend(d, run[..|run| - 1]); }
  }

  /** The clock is nondecreasing, within 64 bits, and the callers leave creation times unset, as the
      HTTP handlers do. */
  ghost predicate Clocked(run: seq<Timed>) {
    && |run| <= INT64_MAX
    && (forall k :: 0 <= k < |run| ==> IsInt64(run[k].now))
    && (forall i, j :: 0 <= i <= j < |run| ==> run[i].now <= run[j].now)
    && (forall k :: 0 <= k < |run| && run[k].op.CreateAudit? ==> run[k].op.audit.createdAt == ZERO_TIME)
  }

  lemma AuditSnoc(log: seq<AuditEntry>, e: AuditEntry, top: int)
    requires IdsGrow(log) && TimesGrow(log) && IsInt64(e.id) && IsInt64(e.createdAt) && e.id > top
    requires forall k :: 0 <= k < |log| ==> log[k].id <= top && log[k].createdAt <= e.createdAt
    ensures IdsGrow(log + [e]) && TimesGrow(log + [e])
  {
  }

  ghost predicate Below(log: seq<AuditEntry>, top: int, hi: int) {
    forall k :: 0 <= k < |log| ==> log[k].id <= top && log[k].createdAt <= hi
  }

  /** The audit log of every such run is ordered by id and by time, so the reading laws apply to it. */
  lemma {:induction false} AuditLogIsOrdered(run: seq<Timed>, hi: int)
    requires Clocked(run) && forall k :: 0 <= k < |run| ==> run[k].now <= hi
    ensures var d := ApplyAll(EMPTY, run);
      d.nextId == |run| && IdsGrow(d.audits) && TimesGrow(d.audits) && Below(d.audits, d.nextId, hi)
  {
    if run != [] {
      var init, last := run[..|run| - 1], run[|run| - 1];
      AuditLogIsOrdered(init, last.now);
      if last.op.CreateAudit? {
        var before, after := ApplyAll(EMPTY, init), ApplyAll(EMPTY, run);
        AuditSnoc(before.audits, after.audits[|before.audits|], before.nextId);
      }
    }
  }

  // ----- Reading back -----

  /** What a created record gets: the next id, the time of the call when it has none, and the scope "relay"
      when it names none. */
  predicate Stamped(d: Data, id: int, createdAt: int, givenCreatedAt: int, now: int) {
    id == d.nextId + 1 && createdAt == if givenCreatedAt == -62135596800000000000 then now else givenCreatedAt
  }

  predicate Scoped(scope: string, given: string) {
    scope == if given == "" then "relay" else given
  }

  /** A standing that was just recorded is the one found in its scope. */
  lemma CreatedStandingIsFound(d: Data, r: StandingRecord, now: int)
    ensures var d' := AddStanding(d, r, now);
      var stored := d'.standings[|d.standings|];
      && stored == r.(id := stored.id, createdAt := stored.createdAt, scope := stored.scope)
      && Stamped(d, stored.id, stored.createdAt, r.createdAt, now) && Scoped(stored.scope, r.scope)
      && (!r.revoked ==> StandingOf(d', r.subject, r.scope) == Some(stored))
      && d' == d.(nextId := d.nextId + 1, standings := d.standings + [stored])
  {
  }

  lemma CreatedPermissionIsFound(d: Data, r: RoomPermission, now: int)
    ensures var d' := AddPermission(d, r, now);
      var stored := d'.permissions[|d.permissions|];
      && stored == r.(id := stored.id, createdAt := stored.createdAt)
      && Stamped(d, stored.id, stored.createdAt, r.createdAt, now)
      && (!r.revoked ==> LatestWhere(d'.permissions, PermissionFor(r.subject, r.roomId)) == Some(stored))
      && d' == d.(nextId := d.nextId + 1, permissions := d.permissions + [stored])
  {
  }

  lemma CreatedProofIsFound(d: Data, r: ProofVerification, now: int)
    ensures var d' := AddProof(d, r, now);
      var stored := d'.proofs[|d.proofs|];
      && stored == r.(id := stored.id, createdAt := stored.createdAt)
      && Stamped(d, stored.id, stored.createdAt, r.createdAt, now)
      && (!r.revoked ==> LatestWhere(d'.proofs, ProofOf(r.subject, r.proofType)) == Some(stored))
      && d' == d.(nextId := d.nextId + 1, proofs := d.proofs + [stored])
  {
  }

  /** A gate policy that was just recorded is in force in its own scope, and one for the scope "relay" in all. */
  lemma CreatedGateIsFound(d: Data, r: GatePolicy, now: int, scope: string)
    ensures var d' := AddGate(d, r, now);
      var stored := d'.gates[|d.gates|];
      && stored == r.(id := stored.id, createdAt := stored.createdAt, scope := stored.scope)
      && Stamped(d, stored.id, stored.createdAt, r.createdAt, now) && Scoped(stored.scope, r.scope)
      && (!r.revoked && stored.scope in {scope, "relay"}
          ==> LatestWhere(d'.gates, GateFor(r.capability, scope)) == Some(stored))
      && d' == d.(nextId := d.nextId + 1, gates := d.gates + [stored])
  {
  }

  lemma CreatedAssignmentIsFound(d: Data, r: PolicyAssignment, now: int, scope: string)
    ensures var d' := AddPolicy(d, r, now);
      var stored := d'.policies[|d.policies|];
      && stored == r.(id := stored.id, createdAt := stored.createdAt, scope := stored.scope)
      && Stamped(d, stored.id, stored.createdAt, r.createdAt, now) && Scoped(stored.scope, r.scope)
      && (!r.revoked && stored.scope in {scope, "relay"} ==> stored in Filter(PolicyFor(r.subject, scope), d'.policies))
      && d' == d.(nextId := d.nextId + 1, policies := d.policies + [stored])
  {
    var d' := AddPolicy(d, r, now);
    var stored := d'.policies[|d.policies|];
    FilterMembers(PolicyFor(r.subject, scope), d'.policies, stored);
  }

  /** An audit entry that was just recorded is the first of the first page. */
  lemma CreatedAuditIsFirst(d: Data, r: AuditEntry, now: int, limit: int)
    ensures var d' := AddAudit(d, r, now);
      var stored, page := d'.audits[|d.audits|], AuditPage(d'.audits, NoCursor, limit);
      && stored == r.(id := stored.id, createdAt := stored.createdAt, scope := stored.scope)
      && Stamped(d, stored.id, stored.createdAt, r.createdAt, now) && Scoped(stored.scope, r.scope)
      && page.Page? && page.entries != [] && page.entries[0] == stored
      && d' == d.(nextId := d.nextId + 1, audits := d.audits + [stored])
  {
  }

  lemma CreatedPinIsStored(d: Data, r: EditorialPin, now: int)
    ensures var d' := AddPin(d, r, now);
      var stored := d'.pins[|d.pins|];
      && stored == r.(id := stored.id, createdAt := stored.createdAt)
      && Stamped(d, stored.id, stored.createdAt, r.createdAt, now)
      && d' == d.(nextId := d.nextId + 1, pins := d.pins + [stored])
  {
  }
}
