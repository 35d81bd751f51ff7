/** The degree chaincode: degree records keyed by document id, the
    university-affiliation registry, accept/deny, hash verification, and two
    full-scan listings that fail as a whole on a value that does not decode. */
module DegreeChaincode {
  import opened Wrappers
  import opened Errors
  import opened Json
  import opened Shim
  import CompositeKey

  const AffiliationIndex: string := "affiliation"
  const ActiveStatus: string := "active"

  datatype DegreeRecord = DegreeRecord(
    docId: string,
    docHash: string,
    owner: string,
    issuer: string,
    universityId: string,
    issuedAt: string,
    accepted: bool,
    denied: bool,
    degreeTitle: string,
    fieldOfStudy: string,
    graduationDate: string,
    honors: string,
    studentId: string,
    programDuration: string,
    gpa: Float64,
    additionalNotes: string)

  datatype Affiliation = Affiliation(userId: string, universityId: string, status: string)

  /** The arguments of IssueDegree. */
  datatype DegreeRequest = DegreeRequest(
    docId: string,
    docHash: string,
    owner: string,
    issuer: string,
    universityId: string,
    degreeTitle: string,
    fieldOfStudy: string,
    graduationDate: string,
    honors: string,
    studentId: string,
    programDuration: string,
    gpa: Float64,
    additionalNotes: string)

  // ---------------------------------------------------------------------------
  // JSON encoding

  function EncodeDegree(r: DegreeRecord): Json {
    JObject(map[
      "docId" := JString(r.docId),
      "docHash" := JString(r.docHash),
      "owner" := JString(r.owner),
      "issuer" := JString(r.issuer),
      "universityId" := JString(r.universityId),
      "issuedAt" := JString(r.issuedAt),
      "accepted" := JBool(r.accepted),
      "denied" := JBool(r.denied),
      "degreeTitle" := JString(r.degreeTitle),
      "fieldOfStudy" := JString(r.fieldOfStudy),
      "graduationDate" := JString(r.graduationDate),
      "honors" := JString(r.honors),
      "studentId" := JString(r.studentId),
      "programDuration" := JString(r.programDuration),
      "gpa" := JNumber(r.gpa),
      "additionalNotes" := JString(r.additionalNotes)])
  }

  function DecodeDegree(b: Blob): Result<DegreeRecord, Error> {
    var f :- StructMembers(b);
    var docId :- StringMember(f, "docId");
    var docHash :- StringMember(f, "docHash");
    var owner :- StringMember(f, "owner");
    var issuer :- StringMember(f, "issuer");
    var universityId :- StringMember(f, "universityId");
    var issuedAt :- StringMember(f, "issuedAt");
    var accepted :- BoolMember(f, "accepted");
    var denied :- BoolMember(f, "denied");
    var degreeTitle :- StringMember(f, "degreeTitle");
    var fieldOfStudy :- StringMember(f, "fieldOfStudy");
    var graduationDate :- StringMember(f, "graduationDate");
    var honors :- StringMember(f, "honors");
    var studentId :- StringMember(f, "studentId");
    var programDuration :- StringMember(f, "programDuration");
    var gpa :- FloatMember(f, "gpa");
    var additionalNotes :- StringMember(f, "additionalNotes");
    Ok(DegreeRecord(docId, docHash, owner, issuer, universityId, issuedAt, accepted, denied,
                    degreeTitle, fieldOfStudy, graduationDate, honors, studentId, programDuration,
                    gpa, additionalNotes))
  }

  function EncodeAffiliation(a: Affiliation): Json {
    JObject(map["userId" := JString(a.userId), "universityId" := JString(a.universityId), "status" := JString(a.status)])
  }

  /** Decoding what was encoded gives back the same record, unless its GPA is
      not a number JSON can carry. */
  lemma DegreeRoundTrip(r: DegreeRecord)
    ensures DecodeDegree(Text(EncodeDegree(r))) == if Finite(r.gpa) then Ok(r) else Err(Undecodable)
  {
    IdentityMembers(r);
    StatusMembers(r);
    StudyMembers(r);
    ProgramMembers(r);
  }

  lemma IdentityMembers(r: DegreeRecord)
    ensures StringMember(EncodeDegree(r).fields, "docId") == Ok(r.docId)
    ensures StringMember(EncodeDegree(r).fields, "docHash") == Ok(r.docHash)
    ensures StringMember(EncodeDegree(r).fields, "owner") == Ok(r.owner)
    ensures StringMember(EncodeDegree(r).fields, "issuer") == Ok(r.issuer)
  {
  }

  lemma StatusMembers(r: DegreeRecord)
    ensures StringMember(EncodeDegree(r).fields, "universityId") == Ok(r.universityId)
    ensures StringMember(EncodeDegree(r).fields, "issuedAt") == Ok(r.issuedAt)
    ensures BoolMember(EncodeDegree(r).fields, "accepted") == Ok(r.accepted)
    ensures BoolMember(EncodeDegree(r).fields, "denied") == Ok(r.denied)
  {
  }

  lemma StudyMembers(r: DegreeRecord)
    ensures StringMember(EncodeDegree(r).fields, "degreeTitle") == Ok(r.degreeTitle)
    ensures StringMember(EncodeDegree(r).fields, "fieldOfStudy") == Ok(r.fieldOfStudy)
    ensures StringMember(EncodeDegree(r).fields, "graduationDate") == Ok(r.graduationDate)
    ensures StringMember(EncodeDegree(r).fields, "honors") == Ok(r.honors)
  {
  }

  lemma ProgramMembers(r: DegreeRecord)
    ensures StringMember(EncodeDegree(r).fields, "studentId") == Ok(r.studentId)
    ensures StringMember(EncodeDegree(r).fields, "programDuration") == Ok(r.programDuration)
    ensures FloatMember(EncodeDegree(r).fields, "gpa") == if Finite(r.gpa) then Ok(r.gpa) else Err(Undecodable)
    ensures StringMember(EncodeDegree(r).fields, "additionalNotes") == Ok(r.additionalNotes)
  {
  }

  /** json.Marshal of a record with its error discarded, as IssueDegree,
      AcceptDegree and DenyDegree discard it: a NaN or infinite GPA makes
      Marshal fail and leaves nil, the empty value. */
  function MarshalDegree(r: DegreeRecord): (b: Blob)
    ensures Finite(r.gpa) ==> DecodeDegree(b) == Ok(r)
    ensures !Finite(r.gpa) ==> IsEmpty(Some(b))
  {
    DegreeRoundTrip(r);
    if Finite(r.gpa) then Text(EncodeDegree(r)) else Raw([])
  }

  // ---------------------------------------------------------------------------
  // Transitions

  /** The record IssueDegree builds: the inputs, the issue time, no decision. */
  function NewDegree(rq: DegreeRequest, issuedAt: string): DegreeRecord {
    DegreeRecord(rq.docId, rq.docHash, rq.owner, rq.issuer, rq.universityId, issuedAt, false, false,
                 rq.degreeTitle, rq.fieldOfStudy, rq.graduationDate, rq.honors, rq.studentId,
                 rq.programDuration, rq.gpa, rq.additionalNotes)
  }

  /** IssueDegree: refuse an occupied document id, otherwise write the
      marshalled record (for a GPA Marshal refuses, the empty value, which
      deletes). The affiliation registry is not consulted. */
  function IssueStep(s: State, rq: DegreeRequest, issuedAt: string): Result<State, Error> {
    if !IsEmpty(Get(s, rq.docId)) then Err(AlreadyExists(rq.docId))
    else Ok(Put(s, rq.docId, MarshalDegree(NewDegree(rq, issuedAt))))
  }

  function AffiliationKey(userId: string, universityId: string): Result<string, Error> {
    CompositeKey.CreateCompositeKey(AffiliationIndex, [userId, universityId])
  }

  /** AddUniversityAffiliation: refuse an existing record for the ordered pair,
      otherwise store an active one. */
  function AffiliateStep(s: State, userId: string, universityId: string): Result<State, Error> {
    var key :- AffiliationKey(userId, universityId);
    if !IsEmpty(Get(s, key)) then Err(AlreadyExists(key))
    else Ok(s[key := Text(EncodeAffiliation(Affiliation(userId, universityId, ActiveStatus)))])
  }

  /** AcceptDegree (`accept`) and DenyDegree (`!accept`). */
  function DecideStep(s: State, docId: string, accept: bool): Result<State, Error> {
    var data := Get(s, docId);
    if IsEmpty(data) then Err(NotFound(docId))
    else
      var r :- DecodeDegree(data.value);
      Ok(Put(s, docId, MarshalDegree(r.(accepted := accept, denied := !accept))))
  }

  // ---------------------------------------------------------------------------
  // Read-only operations

  /** Every marshalled degree record with a finite GPA decodes back to itself. */
  lemma EncodedDegreesDecode()
    ensures forall r: DegreeRecord :: Finite(r.gpa) ==> DecodeDegree(MarshalDegree(r)) == Ok(r)
  {
    forall r: DegreeRecord | Finite(r.gpa) ensures DecodeDegree(MarshalDegree(r)) == Ok(r) {
      DegreeRoundTrip(r);
    }
  }

  /** Decoding fails only as Undecodable, and a decoded GPA is always finite. */
  lemma DecodeFailsAsUndecodable(b: Blob)
    ensures DecodeDegree(b).Err? ==> DecodeDegree(b).error == Undecodable
    ensures DecodeDegree(b).Ok? ==> Finite(DecodeDegree(b).value.gpa)
  {
  }

  /** An affiliation key is built exactly when both ids are acceptable. */
  lemma AffiliationKeyValid(userId: string, universityId: string)
    ensures AffiliationKey(userId, universityId).Ok? <==>
              CompositeKey.ValidAttribute(userId) && CompositeKey.ValidAttribute(universityId)
  {
    assert CompositeKey.AllValid([userId, universityId]) <==>
           CompositeKey.ValidAttribute(userId) && CompositeKey.ValidAttribute(universityId) by {
      assert [userId, universityId][0] == userId && [userId, universityId][1] == universityId;
    }
  }

  /** ReadDegree: nothing stored is not-found; a stored record is returned; a
      value that is not a degree record is Undecodable. */
  function ReadDegree(s: State, docId: string): (r: Result<DegreeRecord, Error>)
    ensures r == Err(NotFound(docId)) <==> IsEmpty(Get(s, docId))
    ensures forall d: DegreeRecord :: Finite(d.gpa) && Get(s, docId) == Some(MarshalDegree(d)) ==> r == Ok(d)
    ensures r.Err? && !IsEmpty(Get(s, docId)) ==> r.error == Undecodable
    ensures r.Ok? ==> Finite(r.value.gpa)
  {
    EncodedDegreesDecode();
    var data := Get(s, docId);
    if IsEmpty(data) then Err(NotFound(docId))
    else
      DecodeFailsAsUndecodable(data.value);
      DecodeDegree(data.value)
  }

  /** CheckAffiliation: true exactly when AddUniversityAffiliation would refuse
      the pair as a duplicate, false exactly when it would record it; fails only
      for an id the shim refuses in a key. */
  function CheckAffiliation(s: State, userId: string, universityId: string): (r: Result<bool, Error>)
    ensures r.Ok? <==> CompositeKey.ValidAttribute(userId) && CompositeKey.ValidAttribute(universityId)
    ensures r == Ok(true) <==> AffiliateStep(s, userId, universityId).Err? && AffiliateStep(s, userId, universityId).error.AlreadyExists?
    ensures r == Ok(false) <==> AffiliateStep(s, userId, universityId).Ok?
  {
    AffiliationKeyValid(userId, universityId);
    var key :- AffiliationKey(userId, universityId);
    Ok(!IsEmpty(Get(s, key)))
  }

  /** VerifyHash: exact string comparison with the stored document hash; a
      missing document is not-found. */
  function VerifyHash(s: State, docId: string, hashToCheck: string): (r: Result<bool, Error>)
    ensures IsEmpty(Get(s, docId)) ==> r == Err(NotFound(docId))
    ensures forall d: DegreeRecord :: Finite(d.gpa) && Get(s, docId) == Some(MarshalDegree(d)) ==> r == Ok(d.docHash == hashToCheck)
    ensures r.Err? && !IsEmpty(Get(s, docId)) ==> r.error == Undecodable
  {
    var record :- ReadDegree(s, docId);
    Ok(record.docHash == hashToCheck)
  }

  // ---------------------------------------------------------------------------
  // Listings

  /** GetAllRecords over the pairs of a full scan: every value decoded, in scan
      order; the first value that does not decode fails the whole listing. */
  function AllRecords(entries: seq<KV>): Result<seq<DegreeRecord>, Error> {
    if entries == [] then Ok([])
    else
      var init :- AllRecords(entries[..|entries| - 1]);
      var r :- DecodeDegree(entries[|entries| - 1].value);
      Ok(init + [r])
  }

  /** GetUniversityRecords over the pairs of a full scan: as AllRecords, keeping
      the records of one university. */
  function UniversityRecords(entries: seq<KV>, universityId: string): Result<seq<DegreeRecord>, Error> {
    if entries == [] then Ok([])
    else
      var init :- UniversityRecords(entries[..|entries| - 1], universityId);
      var r :- DecodeDegree(entries[|entries| - 1].value);
      Ok(if r.universityId == universityId then init + [r] else init)
  }

  // ---------------------------------------------------------------------------
  // The chaincode's transactions

  method IssueDegree(ws: WorldState, rq: DegreeRequest, issuedAt: string) returns (err: Option<Error>)
    modifies ws
    ensures var step := IssueStep(old(ws.state), rq, issuedAt);
      && (step.Ok? ==> err == None && ws.state == step.value)
      && (step.Err? ==> err == Some(step.error) && ws.state == old(ws.state))
  {
    var existing := ws.GetState(rq.docId);
    if !IsEmpty(existing) {
      return Some(AlreadyExists(rq.docId));
    }
    var record := NewDegree(rq, issuedAt);
    ws.PutState(rq.docId, MarshalDegree(record));
    return None;
  }

  method AddUniversityAffiliation(ws: WorldState, userId: string, universityId: string) returns (err: Option<Error>)
    modifies ws
    ensures var step := AffiliateStep(old(ws.state), userId, universityId);
      && (step.Ok? ==> err == None && ws.state == step.value)
      && (step.Err? ==> err == Some(step.error) && ws.state == old(ws.state))
  {
    var key := AffiliationKey(userId, universityId);
    if key.Err? {
      return Some(key.error);
    }
    var existing := ws.GetState(key.value);
    if !IsEmpty(existing) {
      return Some(AlreadyExists(key.value));
    }
    var affiliation := Affiliation(userId, universityId, ActiveStatus);
    ws.PutState(key.value, Text(EncodeAffiliation(affiliation)));
    return None;
  }

  /** The shared body of AcceptDegree and DenyDegree. */
  method Decide(ws: WorldState, docId: string, accept: bool) returns (err: Option<Error>)
    modifies ws
    ensures var step := DecideStep(old(ws.state), docId, accept);
      && (step.Ok? ==> err == None && ws.state == step.value)
      && (step.Err? ==> err == Some(step.error) && ws.state == old(ws.state))
  {
    var data := ws.GetState(docId);
    if IsEmpty(data) {
      return Some(NotFound(docId));
    }
    var record := DecodeDegree(data.value);
    if record.Err? {
      return Some(record.error);
    }
    var updated := record.value.(accepted := accept, denied := !accept);
    ws.PutState(docId, MarshalDegree(updated));
    return None;
  }

  method AcceptDegree(ws: WorldState, docId: string) returns (err: Option<Error>)
    modifies ws
    ensures var step := DecideStep(old(ws.state), docId, true);
      && (step.Ok? ==> err == None && ws.state == step.value)
      && (step.Err? ==> err == Some(step.error) && ws.state == old(ws.state))
  {
    err := Decide(ws, docId, true);
  }

  method DenyDegree(ws: WorldState, docId: string) returns (err: Option<Error>)
    modifies ws
    ensures var step := DecideStep(old(ws.state), docId, false);
      && (step.Ok? ==> err == None && ws.state == step.value)
      && (step.Err? ==> err == Some(step.error) && ws.state == old(ws.state))
  {
    err := Decide(ws, docId, false);
  }

  method GetAllRecords(ws: WorldState) returns (r: Result<seq<DegreeRecord>, Error>)
    ensures r == AllRecords(Scan(ws.state, EmptyKeySubstitute, ""))
  {
    FullScanIsSimpleKeys(ws.state);
    var scanned := ws.GetStateByRange("", "");
    var entries := scanned.value;
    var records: seq<DegreeRecord> := [];
    var i := 0;
    while i < |entries|
      invariant 0 <= i <= |entries|
      invariant AllRecords(entries[..i]) == Ok(records)
    {
      AllRecordsStep(entries, i, records);
      var record := DecodeDegree(entries[i].value);
      if record.Err? {
        AllRecordsFailure(entries, i + 1);
        return Err(record.error);
      }
      records := records + [record.value];
      i := i + 1;
    }
    assert entries[..|entries|] == entries;
    return Ok(records);
  }

  method GetUniversityRecords(ws: WorldState, universityId: string) returns (r: Result<seq<DegreeRecord>, Error>)
    ensures r == UniversityRecords(Scan(ws.state, EmptyKeySubstitute, ""), universityId)
  {
    FullScanIsSimpleKeys(ws.state);
    var scanned := ws.GetStateByRange("", "");
    var entries := scanned.value;
    var records: seq<DegreeRecord> := [];
    var i := 0;
    while i < |entries|
      invariant 0 <= i <= |entries|
      invariant UniversityRecords(entries[..i], universityId) == Ok(records)
    {
      UniversityRecordsStep(entries, universityId, i, records);
      var record := DecodeDegree(entries[i].value);
      if record.Err? {
        UniversityRecordsFailure(entries, universityId, i + 1);
        return Err(record.error);
      }
      if record.value.universityId == universityId {
        records := records + [record.value];
      }
      i := i + 1;
    }
    assert entries[..|entries|] == entries;
    return Ok(records);
  }

  /** One more pair of the scan: its record is appended, or its failure ends
      the listing. */
  lemma AllRecordsStep(entries: seq<KV>, i: nat, records: seq<DegreeRecord>)
    requires i < |entries| && AllRecords(entries[..i]) == Ok(records)
    ensures DecodeDegree(entries[i].value).Ok? ==>
              AllRecords(entries[..i + 1]) == Ok(records + [DecodeDegree(entries[i].value).value])
    ensures DecodeDegree(entries[i].value).Err? ==>
              AllRecords(entries[..i + 1]) == Err(DecodeDegree(entries[i].value).error)
  {
    assert entries[..i + 1][..i] == entries[..i];
  }

  lemma UniversityRecordsStep(entries: seq<KV>, universityId: string, i: nat, records: seq<DegreeRecord>)
    requires i < |entries| && UniversityRecords(entries[..i], universityId) == Ok(records)
    ensures DecodeDegree(entries[i].value).Ok? ==>
              UniversityRecords(entries[..i + 1], universityId)
              == Ok(if DecodeDegree(entries[i].value).value.universityId == universityId
                    then records + [DecodeDegree(entries[i].value).value] else records)
    ensures DecodeDegree(entries[i].value).Err? ==>
              UniversityRecords(entries[..i + 1], universityId) == Err(DecodeDegree(entries[i].value).error)
  {
    assert entries[..i + 1][..i] == entries[..i];
  }

  /** Once a prefix of the scan fails, the whole listing fails the same way. */
  lemma {:induction false} AllRecordsFailure(entries: seq<KV>, j: nat)
    requires j <= |entries| && AllRecords(entries[..j]).Err?
    ensures AllRecords(entries) == AllRecords(entries[..j])
    decreases |entries| - j
  {
    if j < |entries| {
      var n := |entries|;
      assert entries[..j + 1][..j] == entries[..j];
      AllRecordsFailure(entries, j + 1);
    } else {
      assert entries[..j] == entries;
    }
  }

  lemma {:induction false} UniversityRecordsFailure(entries: seq<KV>, universityId: string, j: nat)
    requires j <= |entries| && UniversityRecords(entries[..j], universityId).Err?
    ensures UniversityRecords(entries, universityId) == UniversityRecords(entries[..j], universityId)
    decreases |entries| - j
  {
    if j < |entries| {
      assert entries[..j + 1][..j] == entries[..j];
      UniversityRecordsFailure(entries, universityId, j + 1);
    } else {
      assert entries[..j] == entries;
    }
  }
}
