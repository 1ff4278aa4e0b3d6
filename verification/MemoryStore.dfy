/**
 The append-only record store. Nothing is ever updated or removed: a revocation is one more
 record, and every lookup skips revoked records.
 */
module MemoryStore {
  import opened Sorting
  import opened Text
  import opened AuditCursor

  const DEFAULT_SCOPE: string := "relay"

  datatype PolicyAssignment = PolicyAssignment(id: int, subject: string, policyType: string, scope: string,
                                               revoked: bool, createdAt: int)
  datatype StandingRecord = StandingRecord(id: int, subject: string, standing: string, scope: string, revoked: bool,
                                           createdAt: int)
  datatype RoomPermission = RoomPermission(
    id: int, subject: string, roomId: string, canJoin: bool, canPublish: bool, canSubscribe: bool, revoked: bool,
    createdAt: int)
  datatype ProofVerification = ProofVerification(id: int, subject: string, proofType: string, proofValue: string,
                                                 revoked: bool, createdAt: int)
  datatype GatePolicy = GatePolicy(
    id: int, capability: string, scope: string, requireGuest: bool, proofTypes: seq<string>, revoked: bool,
    createdAt: int)

  datatype EditorialPin = EditorialPin(id: int, geohash: string, noteId: string, labelText: string, revoked: bool,
                                       createdAt: int)

  /** Everything the store holds, oldest record first. */
  datatype Data = Data(
    nextId: nat,
    policies: seq<PolicyAssignment>,
    standings: seq<StandingRecord>,
    permissions: seq<RoomPermission>,
    proofs: seq<ProofVerification>,
    gates: seq<GatePolicy>,
    pins: seq<EditorialPin>,
    audits: seq<AuditEntry>)

  const EMPTY: Data := Data(0, [], [], [], [], [], [], [])

  function DefaultScope(scope: string): string {
    if scope == "" then DEFAULT_SCOPE else scope
  }

  function NowOr(value: int, now: int): int {
    if value == ZERO_TIME then now else value
  }

  // ----- Appending -----

  function AddPolicy(d: Data, r: PolicyAssignment, now: int): Data {
    d.(nextId := d.nextId + 1,
       policies := d.policies + [
         r.(id := d.nextId + 1, createdAt := NowOr(r.createdAt, now), scope := DefaultScope(r.scope))])
  }

  function AddStanding(d: Data, r: StandingRecord, now: int): Data {
    d.(nextId := d.nextId + 1,
       standings := d.standings + [
         r.(id := d.nextId + 1, createdAt := NowOr(r.createdAt, now), scope := DefaultScope(r.scope))])
  }

  function AddPermission(d: Data, r: RoomPermission, now: int): Data {
    d.(nextId := d.nextId + 1,
       permissions := d.permissions + [r.(id := d.nextId + 1, createdAt := NowOr(r.createdAt, now))])
  }

  function AddProof(d: Data, r: ProofVerification, now: int): Data {
    d.(nextId := d.nextId + 1,
       proofs := d.proofs + [r.(id := d.nextId + 1, createdAt := NowOr(r.createdAt, now))])
  }

  function AddGate(d: Data, r: GatePolicy, now: int): Data {
    d.(nextId := d.nextId + 1,
       gates := d.gates + [
         r.(id := d.nextId + 1, createdAt := NowOr(r.createdAt, now), scope := DefaultScope(r.scope))])
  }

  function AddPin(d: Data, r: EditorialPin, now: int): Data {
    d.(nextId := d.nextId + 1,
       pins := d.pins + [r.(id := d.nextId + 1, createdAt := NowOr(r.createdAt, now))])
  }

  function AddAudit(d: Data, r: AuditEntry, now: int): Data {
    d.(nextId := d.nextId + 1,
       audits := d.audits + [
         r.(id := d.nextId + 1, createdAt := NowOr(r.createdAt, now), scope := DefaultScope(r.scope))])
  }

  // ----- Looking up -----

  /** The most recently appended element that satisfies p. */
  function LatestWhere<T>(s: seq<T>, p: T -> bool): Option<T> {
    if s == [] then None
    else if p(s[|s| - 1]) then Some(s[|s| - 1])
    else LatestWhere(s[..|s| - 1], p)
  }

  function StandingIn(subject: string, scope: string): StandingRecord -> bool {
    (r: StandingRecord) => r.subject == subject && !r.revoked && r.scope == scope
  }

  function PermissionFor(subject: string, roomId: string): RoomPermission -> bool {
    (r: RoomPermission) => r.subject == subject && r.roomId == roomId && !r.revoked
  }

  function ProofOf(subject: string, proofType: string): ProofVerification -> bool {
    (r: ProofVerification) => r.subject == subject && r.proofType == proofType && !r.revoked
  }

  function GateFor(capability: string, scope: string): GatePolicy -> bool {
    (r: GatePolicy) => r.capability == capability && !r.revoked && (r.scope == scope || r.scope == DEFAULT_SCOPE)
  }

  function PolicyFor(subject: string, scope: string): PolicyAssignment -> bool {
    (r: PolicyAssignment) => r.subject == subject && !r.revoked && (r.scope == DEFAULT_SCOPE || r.scope == scope)
  }

  /** The newest standing in the scope itself, or else in the default scope. */
  function StandingOf(d: Data, subject: string, scope: string): Option<StandingRecord> {
    var scoped := LatestWhere(d.standings, StandingIn(subject, DefaultScope(scope)));
    if scoped.Some? || DefaultScope(scope) == DEFAULT_SCOPE then scoped
    else LatestWhere(d.standings, StandingIn(subject, DEFAULT_SCOPE))
  }

  /** Whether an entry comes after the cursor position in newest-first order. */
  predicate Beyond(e: AuditEntry, p: Position) {
    p.time == ZERO_TIME || !(e.createdAt > p.time || (e.createdAt == p.time && e.id >= p.id))
  }

  /** The entries beyond a position, newest first. */
  function Older(log: seq<AuditEntry>, p: Position): seq<AuditEntry> {
    if log == [] then []
    else
      var rest := Older(log[..|log| - 1], p);
      if Beyond(log[|log| - 1], p) then [log[|log| - 1]] + rest else rest
  }

  datatype Page = Page(entries: seq<AuditEntry>, next: Cursor) | PageError

  function AuditPage(log: seq<AuditEntry>, cursor: Cursor, limit: int): Page {
    match DecodeAuditCursor(cursor)
    case DecodeError => PageError
    case Ok(position) =>
      var filtered, size := Older(log, position), ClampLimit(limit);
      if |filtered| > size then Page(filtered[..size], EncodeAuditCursor(filtered[size - 1]))
      else Page(filtered, NoCursor)
  }

  // ----- The store as the service runs it -----

  class Store {
    var nextID: nat
    var policies: seq<PolicyAssignment>
    var standingRecords: seq<StandingRecord>
    var roomPermissions: seq<RoomPermission>
    var proofRecords: seq<ProofVerification>
    var gatePolicies: seq<GatePolicy>
    var editorialPins: seq<EditorialPin>
    var auditEntries: seq<AuditEntry>

    function Contents(): Data
      reads this
    {
      Data(nextID, policies, standingRecords, roomPermissions, proofRecords, gatePolicies, editorialPins, auditEntries)
    }

    constructor ()
      ensures Contents() == EMPTY
    {
      nextID := 0;
      policies, standingRecords, roomPermissions := [], [], [];
      proofRecords, gatePolicies, editorialPins, auditEntries := [], [], [], [];
    }

    method CreatePolicyAssignment(r: PolicyAssignment, now: int) returns (record: PolicyAssignment)
      modifies this
      ensures Contents() == AddPolicy(old(Contents()), r, now) && record == policies[|policies| - 1]
    {
      nextID := nextID + 1;
      record := r.(id := nextID);
      record := record.(createdAt := NowOr(record.createdAt, now));
      record := record.(scope := DefaultScope(record.scope));
      policies := policies + [record];
    }

    method CreateStandingRecord(r: StandingRecord, now: int) returns (record: StandingRecord)
      modifies this
      ensures Contents() == AddStanding(old(Contents()), r, now) && record == standingRecords[|standingRecords| - 1]
    {
      nextID := nextID + 1;
      record := r.(id := nextID);
      record := record.(createdAt := NowOr(record.createdAt, now));
      record := record.(scope := DefaultScope(record.scope));
      standingRecords := standingRecords + [record];
    }

    method CreateRoomPermission(r: RoomPermission, now: int) returns (record: RoomPermission)
      modifies this
      ensures Contents() == AddPermission(old(Contents()), r, now) && record == roomPermissions[|roomPermissions| - 1]
    {
      nextID := nextID + 1;
      record := r.(id := nextID);
      record := record.(createdAt := NowOr(record.createdAt, now));
      roomPermissions := roomPermissions + [record];
    }

    method CreateProofVerification(r: ProofVerification, now: int) returns (record: ProofVerification)
      modifies this
      ensures Contents() == AddProof(old(Contents()), r, now) && record == proofRecords[|proofRecords| - 1]
    {
      nextID := nextID + 1;
      record := r.(id := nextID);
      record := record.(createdAt := NowOr(record.createdAt, now));
      proofRecords := proofRecords + [record];
    }

    method CreateGatePolicy(r: GatePolicy, now: int) returns (record: GatePolicy)
      modifies this
      ensures Contents() == AddGate(old(Contents()), r, now) && record == gatePolicies[|gatePolicies| - 1]
    {
      nextID := nextID + 1;
      record := r.(id := nextID);
      record := record.(createdAt := NowOr(record.createdAt, now));
      record := record.(scope := DefaultScope(record.scope));
      gatePolicies := gatePolicies + [record];
    }

    method CreateEditorialPin(r: EditorialPin, now: int) returns (record: EditorialPin)
      modifies this
      ensures Contents() == AddPin(old(Contents()), r, now) && record == editorialPins[|editorialPins| - 1]
    {
      nextID := nextID + 1;
      record := r.(id := nextID);
      record := record.(createdAt := NowOr(record.createdAt, now));
      editorialPins := editorialPins + [record];
    }

    method CreateAuditEntry(r: AuditEntry, now: int) returns (record: AuditEntry)
      modifies this
      ensures Contents() == AddAudit(old(Contents()), r, now) && record == auditEntries[|auditEntries| - 1]
    {
      nextID := nextID + 1;
      record := r.(id := nextID);
      record := record.(createdAt := NowOr(record.createdAt, now));
      record := record.(scope := DefaultScope(record.scope));
      auditEntries := auditEntries + [record];
    }

    /** One backward scan of the standing records. */
    method ScanStanding(subject: string, scope: string) returns (found: Option<StandingRecord>)
      ensures found == LatestWhere(standingRecords, StandingIn(subject, scope))
    {
      var index := |standingRecords|;
      assert standingRecords[..index] == standingRecords;
      while index > 0
        invariant index <= |standingRecords|
        invariant LatestWhere(standingRecords, StandingIn(subject, scope))
               == LatestWhere(standingRecords[..index], StandingIn(subject, scope))
      {
        index := index - 1;
        assert standingRecords[..index + 1][..index] == standingRecords[..index];
        var record := standingRecords[index];
        if record.subject != subject || record.revoked {
          continue;
        }
        if record.scope == scope {
          return Some(record);
        }
      }
      return None;
    }

    method LatestStanding(subject: string, scope: string) returns (found: Option<StandingRecord>)
      ensures found == StandingOf(Contents(), subject, scope)
    {
      var wanted := DefaultScope(scope);
      found := ScanStanding(subject, wanted);
      if found.None? && wanted != DEFAULT_SCOPE {
        found := ScanStanding(subject, DEFAULT_SCOPE);
      }
    }

    method LatestRoomPermission(subject: string, roomId: string) returns (found: Option<RoomPermission>)
      ensures found == LatestWhere(roomPermissions, PermissionFor(subject, roomId))
    {
      var index := |roomPermissions|;
      assert roomPermissions[..index] == roomPermissions;
      while index > 0
        invariant index <= |roomPermissions|
        invariant LatestWhere(roomPermissions, PermissionFor(subject, roomId))
               == LatestWhere(roomPermissions[..index], PermissionFor(subject, roomId))
      {
        index := index - 1;
        assert roomPermissions[..index + 1][..index] == roomPermissions[..index];
        var record := roomPermissions[index];
        if record.subject == subject && record.roomId == roomId && !record.revoked {
          return Some(record);
        }
      }
      return None;
    }

    method LatestProofVerification(subject: string, proofType: string) returns (found: Option<ProofVerification>)
      ensures found == LatestWhere(proofRecords, ProofOf(subject, proofType))
    {
      var index := |proofRecords|;
      assert proofRecords[..index] == proofRecords;
      while index > 0
        invariant index <= |proofRecords|
        invariant LatestWhere(proofRecords, ProofOf(subject, proofType))
               == LatestWhere(proofRecords[..index], ProofOf(subject, proofType))
      {
        index := index - 1;
        assert proofRecords[..index + 1][..index] == proofRecords[..index];
        var record := proofRecords[index];
        if record.subject == subject && record.proofType == proofType && !record.revoked {
          return Some(record);
        }
      }
      return None;
    }

    method LatestGatePolicy(capability: string, scope: string) returns (found: Option<GatePolicy>)
      ensures found == LatestWhere(gatePolicies, GateFor(capability, DefaultScope(scope)))
    {
      var wanted := DefaultScope(scope);
      var index := |gatePolicies|;
      assert gatePolicies[..index] == gatePolicies;
      while index > 0
        invariant index <= |gatePolicies|
        invariant LatestWhere(gatePolicies, GateFor(capability, wanted))
               == LatestWhere(gatePolicies[..index], GateFor(capability, wanted))
      {
        index := index - 1;
        assert gatePolicies[..index + 1][..index] == gatePolicies[..index];
        var record := gatePolicies[index];
        if record.capability != capability || record.revoked {
          continue;
        }
        if record.scope == wanted || record.scope == DEFAULT_SCOPE {
          return Some(record);
        }
      }
      return None;
    }

    method ActivePolicyAssignments(subject: string, scope: string) returns (assignments: seq<PolicyAssignment>)
      ensures assignments == Filter(PolicyFor(subject, DefaultScope(scope)), policies)
    {
      var wanted := DefaultScope(scope);
      assignments := [];
      for i := 0 to |policies|
        invariant assignments == Filter(PolicyFor(subject, wanted), policies[..i])
      {
        var record := policies[i];
        assert policies[..i + 1][..i] == policies[..i];
        if record.subject != subject || record.revoked {
          continue;
        }
        if record.scope == DEFAULT_SCOPE || record.scope == wanted {
          assignments := assignments + [record];
        }
      }
      assert policies[..|policies|] == policies;
    }

    /** The reversed scan of `ListAuditEntries`. */
    method ScanAudit(position: Position) returns (filtered: seq<AuditEntry>)
      ensures filtered == Older(auditEntries, position)
    {
      filtered := [];
      var index := |auditEntries|;
      assert auditEntries[..index] == auditEntries;
      while index > 0
        invariant index <= |auditEntries|
        invariant Older(auditEntries, position) == filtered + Older(auditEntries[..index], position)
      {
        index := index - 1;
        OlderStep(auditEntries, index, position);
        var entry := auditEntries[index];
        if position.time != ZERO_TIME {
          if entry.createdAt > position.time {
            continue;
          }
          if entry.createdAt == position.time && entry.id >= position.id {
            continue;
          }
        }
        assert filtered + ([entry] + Older(auditEntries[..index], position))
            == (filtered + [entry]) + Older(auditEntries[..index], position);
        filtered := filtered + [entry];
      }
    }

    method ListAuditEntries(cursor: Cursor, limit: int) returns (page: Page)
      ensures page == AuditPage(auditEntries, cursor, limit)
    {
      var decoded := DecodeAuditCursor(cursor);
      if decoded.DecodeError? {
        return PageError;
      }
      var filtered := ScanAudit(decoded.position);
      var size := ClampLimit(limit);
      if |filtered| > size {
        return Page(filtered[..size], EncodeAuditCursor(filtered[size - 1]));
      }
      return Page(filtered, NoCursor);
    }
  }

  lemma OlderStep(log: seq<AuditEntry>, i: nat, p: Position)
    requires i < |log|
    ensures Older(log[..i + 1], p) == if Beyond(log[i], p) then [log[i]] + Older(log[..i], p) else Older(log[..i], p)
  {
    assert log[..i + 1][..i] == log[..i];
  }
}
