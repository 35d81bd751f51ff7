/** The credential chaincode: issuance with three secondary-index entries, the
    accept/deny status of a credential, the issuer-holder relationship registry,
    hash verification, index-driven and full-scan listings, and the access-grant
    log, all over one world state. */
module CredentialChaincode {
  import opened Wrappers
  import opened Errors
  import opened Json
  import opened Shim
  import CompositeKey

  /** The object types of the composite keys the chaincode writes. */
  const IssuerDocIndex: string := "issuer~doc"
  const HolderDocIndex: string := "holder~doc"
  const IssuerOrgDocIndex: string := "issuerOrg~doc"
  const RelationshipIndex: string := "issuer-holder"
  const AccessIndex: string := "access"

  /** The status a new relationship record carries. */
  const ActiveStatus: string := "active"

  datatype Credential = Credential(
    docId: string,
    docHash: string,
    credType: string,
    holderId: string,
    issuerId: string,
    issuerOrgId: string,
    accepted: bool,
    denied: bool,
    title: string,
    description: string,
    ledgerTimestamp: string,
    achievementDate: string,
    expirationDate: string,
    programLength: string,
    domain: string,
    attributes: map<string, string>)

  datatype IssuerHolderRelationship = IssuerHolderRelationship(holderId: string, issuerId: string, status: string)

  datatype AccessGrant = AccessGrant(docId: string, requestedBy: string, grantedAt: string)

  /** The arguments of IssueCredential; the attributes arrive as JSON text. */
  datatype IssueRequest = IssueRequest(
    docId: string,
    docHash: string,
    holderId: string,
    issuerId: string,
    issuerOrgId: string,
    credType: string,
    title: string,
    description: string,
    achievementDate: string,
    expirationDate: string,
    programLength: string,
    domain: string,
    attributesJSON: Blob)

  // ---------------------------------------------------------------------------
  // JSON encoding (json.Marshal / json.Unmarshal with the struct tags)

  function EncodeCredential(c: Credential): Json {
    JObject(map[
      "docId" := JString(c.docId),
      "docHash" := JString(c.docHash),
      "type" := JString(c.credType),
      "holderId" := JString(c.holderId),
      "issuerId" := JString(c.issuerId),
      "issuerOrgId" := JString(c.issuerOrgId),
      "accepted" := JBool(c.accepted),
      "denied" := JBool(c.denied),
      "title" := JString(c.title),
      "description" := JString(c.description),
      "ledgerTimestamp" := JString(c.ledgerTimestamp),
      "achievementDate" := JString(c.achievementDate),
      "expirationDate" := JString(c.expirationDate),
      "programLength" := JString(c.programLength),
      "domain" := JString(c.domain),
      "attributes" := EncodeStringMap(c.attributes)])
  }

  function DecodeCredential(b: Blob): Result<Credential, Error> {
    var f :- StructMembers(b);
    var docId :- StringMember(f, "docId");
    var docHash :- StringMember(f, "docHash");
    var credType :- StringMember(f, "type");
    var holderId :- StringMember(f, "holderId");
    var issuerId :- StringMember(f, "issuerId");
    var issuerOrgId :- StringMember(f, "issuerOrgId");
    var accepted :- BoolMember(f, "accepted");
    var denied :- BoolMember(f, "denied");
    var title :- StringMember(f, "title");
    var description :- StringMember(f, "description");
    var ledgerTimestamp :- StringMember(f, "ledgerTimestamp");
    var achievementDate :- StringMember(f, "achievementDate");
    var expirationDate :- StringMember(f, "expirationDate");
    var programLength :- StringMember(f, "programLength");
    var domain :- StringMember(f, "domain");
    var attributes :- StringMapMember(f, "attributes");
    Ok(Credential(docId, docHash, credType, holderId, issuerId, issuerOrgId, accepted, denied,
                  title, description, ledgerTimestamp, achievementDate, expirationDate,
                  programLength, domain, attributes))
  }

  function EncodeRelationship(r: IssuerHolderRelationship): Json {
    JObject(map["holderId" := JString(r.holderId), "issuerId" := JString(r.issuerId), "status" := JString(r.status)])
  }

  function EncodeAccessGrant(g: AccessGrant): Json {
    JObject(map["docId" := JString(g.docId), "requestedBy" := JString(g.requestedBy), "grantedAt" := JString(g.grantedAt)])
  }

  /** The attributes argument parsed into a `map[string]string`. */
  function DecodeAttributes(b: Blob): Result<map<string, string>, Error> {
    match b
    case Raw(_) => Err(Undecodable)
    case Text(v) => StringMap(v)
  }

  /** Decoding what was encoded gives back the same credential. */
  lemma CredentialRoundTrip(c: Credential)
    ensures DecodeCredential(Text(EncodeCredential(c))) == Ok(c)
  {
    IdentityMembers(c);
    StatusMembers(c);
    DescriptionMembers(c);
    ProgramMembers(c);
  }

  lemma IdentityMembers(c: Credential)
    ensures StringMember(EncodeCredential(c).fields, "docId") == Ok(c.docId)
    ensures StringMember(EncodeCredential(c).fields, "docHash") == Ok(c.docHash)
    ensures StringMember(EncodeCredential(c).fields, "type") == Ok(c.credType)
    ensures StringMember(EncodeCredential(c).fields, "holderId") == Ok(c.holderId)
  {
  }

  lemma StatusMembers(c: Credential)
    ensures StringMember(EncodeCredential(c).fields, "issuerId") == Ok(c.issuerId)
    ensures StringMember(EncodeCredential(c).fields, "issuerOrgId") == Ok(c.issuerOrgId)
    ensures BoolMember(EncodeCredential(c).fields, "accepted") == Ok(c.accepted)
    ensures BoolMember(EncodeCredential(c).fields, "denied") == Ok(c.denied)
  {
  }

  lemma DescriptionMembers(c: Credential)
    ensures StringMember(EncodeCredential(c).fields, "title") == Ok(c.title)
    ensures StringMember(EncodeCredential(c).fields, "description") == Ok(c.description)
    ensures StringMember(EncodeCredential(c).fields, "ledgerTimestamp") == Ok(c.ledgerTimestamp)
    ensures StringMember(EncodeCredential(c).fields, "achievementDate") == Ok(c.achievementDate)
  {
  }

  lemma ProgramMembers(c: Credential)
    ensures StringMember(EncodeCredential(c).fields, "expirationDate") == Ok(c.expirationDate)
    ensures StringMember(EncodeCredential(c).fields, "programLength") == Ok(c.programLength)
    ensures StringMember(EncodeCredential(c).fields, "domain") == Ok(c.domain)
    ensures StringMapMember(EncodeCredential(c).fields, "attributes") == Ok(c.attributes)
  {
    StringMapRoundTrip(c.attributes);
  }

  /** The one-byte index payload never decodes as a credential. */
  lemma SentinelIsNotCredential()
    ensures DecodeCredential(Sentinel).Err?
  {
  }

  // ---------------------------------------------------------------------------
  // Transitions of the world state, one per state-changing operation

  /** The record IssueCredential builds: the inputs, the ledger timestamp, and
      neither accepted nor denied. */
  function NewCredential(rq: IssueRequest, attributes: map<string, string>, ledgerTimestamp: string): Credential {
    Credential(rq.docId, rq.docHash, rq.credType, rq.holderId, rq.issuerId, rq.issuerOrgId, false, false,
               rq.title, rq.description, ledgerTimestamp, rq.achievementDate, rq.expirationDate,
               rq.programLength, rq.domain, attributes)
  }

  /** The index key IssueCredential writes in namespace `ns` for `id`. */
  function IndexKey(ns: string, id: string, docId: string): Result<string, Error> {
    CompositeKey.CreateCompositeKey(ns, [id, docId])
  }

  /** The chaincode's own object types are acceptable to the shim, so a key
      fails only for an attribute holding U+0000 or U+10FFFF. */
  lemma NamespacesValid()
    ensures CompositeKey.ValidAttribute(IssuerDocIndex) && CompositeKey.ValidAttribute(HolderDocIndex)
    ensures CompositeKey.ValidAttribute(IssuerOrgDocIndex) && CompositeKey.ValidAttribute(RelationshipIndex)
    ensures CompositeKey.ValidAttribute(AccessIndex)
  {
  }

  lemma PairKeyValid(ns: string, a: string, b: string)
    requires ns in {IssuerDocIndex, HolderDocIndex, IssuerOrgDocIndex, RelationshipIndex, AccessIndex}
    ensures CompositeKey.CreateCompositeKey(ns, [a, b]).Ok? <==>
              CompositeKey.ValidAttribute(a) && CompositeKey.ValidAttribute(b)
  {
    NamespacesValid();
    assert CompositeKey.AllValid([a, b]) <==> CompositeKey.ValidAttribute(a) && CompositeKey.ValidAttribute(b) by {
      assert [a, b][0] == a && [a, b][1] == b;
    }
  }

  /** IssueCredential: refuse a document id that holds a value, parse the
      attributes, build the three index keys, then write the three index entries
      and the record. */
  function IssueStep(s: State, rq: IssueRequest, ledgerTimestamp: string): Result<State, Error> {
    if !IsEmpty(Get(s, rq.docId)) then Err(AlreadyExists(rq.docId))
    else
      var attributes :- DecodeAttributes(rq.attributesJSON);
      var issuerKey :- IndexKey(IssuerDocIndex, rq.issuerId, rq.docId);
      var holderKey :- IndexKey(HolderDocIndex, rq.holderId, rq.docId);
      var orgKey :- IndexKey(IssuerOrgDocIndex, rq.issuerOrgId, rq.docId);
      var record := NewCredential(rq, attributes, ledgerTimestamp);
      Ok(s[issuerKey := Sentinel][holderKey := Sentinel][orgKey := Sentinel][rq.docId := Text(EncodeCredential(record))])
  }

  /** AcceptCredential (`accept`) and DenyCredential (`!accept`): read the
      record, set one flag and clear the other, write it back. */
  function DecideStep(s: State, docId: string, accept: bool): Result<State, Error> {
    var data := Get(s, docId);
    if IsEmpty(data) then Err(NotFound(docId))
    else
      var c :- DecodeCredential(data.value);
      Ok(s[docId := Text(EncodeCredential(c.(accepted := accept, denied := !accept)))])
  }

  function RelationshipKey(holderId: string, issuerId: string): Result<string, Error> {
    CompositeKey.CreateCompositeKey(RelationshipIndex, [holderId, issuerId])
  }

  /** AddIssuerHolderRelationship: refuse an existing record for the ordered
      pair, otherwise store an active one. */
  function RelateStep(s: State, holderId: string, issuerId: string): Result<State, Error> {
    var key :- RelationshipKey(holderId, issuerId);
    if !IsEmpty(Get(s, key)) then Err(AlreadyExists(key))
    else Ok(s[key := Text(EncodeRelationship(IssuerHolderRelationship(holderId, issuerId, ActiveStatus)))])
  }

  /** GrantAccess: refuse a missing document, otherwise upsert the grant under
      access/[docId, verifierId]. */
  function GrantStep(s: State, docId: string, verifierId: string, grantedAt: string): Result<State, Error> {
    if IsEmpty(Get(s, docId)) then Err(NotFound(docId))
    else
      var key :- CompositeKey.CreateCompositeKey(AccessIndex, [docId, verifierId]);
      Ok(s[key := Text(EncodeAccessGrant(AccessGrant(docId, verifierId, grantedAt)))])
  }

  // ---------------------------------------------------------------------------
  // Read-only operations

  /** Every encoded credential decodes back to itself. */
  lemma EncodedCredentialsDecode()
    ensures forall c :: DecodeCredential(Text(EncodeCredential(c))) == Ok(c)
  {
    forall c: Credential ensures DecodeCredential(Text(EncodeCredential(c))) == Ok(c) {
      CredentialRoundTrip(c);
    }
  }

  /** Decoding fails only as Undecodable. */
  lemma DecodeFailsAsUndecodable(b: Blob)
    ensures DecodeCredential(b).Err? ==> DecodeCredential(b).error == Undecodable
  {
  }

  /** ReadCredential: nothing stored is not-found; a stored record is returned;
      a value that is not a credential is Undecodable. */
  function ReadCredential(s: State, docId: string): (r: Result<Credential, Error>)
    ensures r == Err(NotFound(docId)) <==> IsEmpty(Get(s, docId))
    ensures forall c :: Get(s, docId) == Some(Text(EncodeCredential(c))) ==> r == Ok(c)
    ensures r.Err? && !IsEmpty(Get(s, docId)) ==> r.error == Undecodable
  {
    EncodedCredentialsDecode();
    var data := Get(s, docId);
    if IsEmpty(data) then Err(NotFound(docId))
    else
      DecodeFailsAsUndecodable(data.value);
      DecodeCredential(data.value)
  }

  /** CheckIssuerHolderRelationship: is anything stored for the ordered pair?
      It answers true exactly when AddIssuerHolderRelationship would refuse the
      pair as a duplicate, false exactly when it would record it, and fails
      only for an id the shim refuses in a key. */
  function CheckIssuerHolderRelationship(s: State, holderId: string, issuerId: string): (r: Result<bool, Error>)
    ensures r.Ok? <==> CompositeKey.ValidAttribute(holderId) && CompositeKey.ValidAttribute(issuerId)
    ensures r == Ok(true) <==> RelateStep(s, holderId, issuerId).Err? && RelateStep(s, holderId, issuerId).error.AlreadyExists?
    ensures r == Ok(false) <==> RelateStep(s, holderId, issuerId).Ok?
  {
    PairKeyValid(RelationshipIndex, holderId, issuerId);
    var key :- RelationshipKey(holderId, issuerId);
    Ok(!IsEmpty(Get(s, key)))
  }

  /** VerifyHash: exact string comparison with the stored document hash; a
      missing document is not-found. */
  function VerifyHash(s: State, docId: string, hashToCheck: string): (r: Result<bool, Error>)
    ensures IsEmpty(Get(s, docId)) ==> r == Err(NotFound(docId))
    ensures forall c :: Get(s, docId) == Some(Text(EncodeCredential(c))) ==> r == Ok(c.docHash == hashToCheck)
    ensures r.Err? && !IsEmpty(Get(s, docId)) ==> r.error == Undecodable
  {
    var c :- ReadCredential(s, docId);
    Ok(c.docHash == hashToCheck)
  }

  // ---------------------------------------------------------------------------
  // Listings

  /** GetAllCredentials over the pairs a full scan yields: every value that
      decodes as a credential, in scan order; the others are skipped. */
  function DecodedCredentials(entries: seq<KV>): seq<Credential> {
    if entries == [] then []
    else
      var init := DecodedCredentials(entries[..|entries| - 1]);
      match DecodeCredential(entries[|entries| - 1].value)
      case Ok(c) => init + [c]
      case Err(_) => init
  }

  /** One turn of the GetAllCredentials loop: the next value is appended when
      it decodes and skipped otherwise. */
  lemma DecodedCredentialsStep(entries: seq<KV>, i: nat)
    requires i < |entries|
    ensures DecodeCredential(entries[i].value).Ok? ==>
      DecodedCredentials(entries[..i + 1]) == DecodedCredentials(entries[..i]) + [DecodeCredential(entries[i].value).value]
    ensures DecodeCredential(entries[i].value).Err? ==>
      DecodedCredentials(entries[..i + 1]) == DecodedCredentials(entries[..i])
  {
    assert entries[..i + 1][..i] == entries[..i];
  }

  /** What one index entry contributes to a lookup. */
  datatype Resolved = Skip | Found(c: Credential) | Failed(e: Error)

  /** One turn of the lookup loop: split the key, skip it with fewer than two
      attributes, read the document named by the second, skip it when nothing
      is stored, otherwise decode it (a failure ends the lookup). */
  function ResolveEntry(s: State, kv: KV): Resolved
    requires CompositeKey.Components(kv.key) != []
  {
    var (_, parts) := CompositeKey.SplitCompositeKey(kv.key);
    if |parts| < 2 then Skip
    else
      var docBytes := Get(s, parts[1]);
      if IsEmpty(docBytes) then Skip
      else match DecodeCredential(docBytes.value)
        case Ok(c) => Found(c)
        case Err(e) => Failed(e)
  }

  predicate Splittable(entries: seq<KV>) {
    forall i :: 0 <= i < |entries| ==> CompositeKey.Components(entries[i].key) != []
  }

  /** The lookup loop over index entries, in scan order. */
  function ResolveIndex(s: State, entries: seq<KV>): Result<seq<Credential>, Error>
    requires Splittable(entries)
  {
    if entries == [] then Ok([])
    else match ResolveEntry(s, entries[0])
      case Skip => ResolveIndex(s, entries[1..])
      case Failed(e) => Err(e)
      case Found(c) =>
        var rest :- ResolveIndex(s, entries[1..]);
        Ok([c] + rest)
  }

  /** Every key a partial-composite-key scan yields has components. */
  lemma PartialScanSplittable(s: State, ns: string, id: string)
    requires ByPartialKey(s, ns, [id]).Ok?
    ensures Splittable(ByPartialKey(s, ns, [id]).value)
  {
    var p := CompositeKey.CreateCompositeKey(ns, [id]).value;
    var keys := ScanKeys(s, p, p + [LexOrder.Top]);
    forall i | 0 <= i < |keys| ensures CompositeKey.Components(keys[i]) != [] {
      assert keys[i] in keys;
      CompositeKey.PartialRangeComponents(ns, [id], keys[i]);
    }
  }

  /** GetIssuerCredentials (`ns` = issuerOrg~doc) and GetHolderCredentials
      (`ns` = holder~doc): resolve the index entries under [id]. */
  ghost function IndexLookup(s: State, ns: string, id: string): Result<seq<Credential>, Error> {
    match ByPartialKey(s, ns, [id])
    case Err(e) => Err(e)
    case Ok(entries) =>
      PartialScanSplittable(s, ns, id);
      ResolveIndex(s, entries)
  }

  /** `found` followed by what the rest of the loop yields. */
  function Prepend(found: seq<Credential>, r: Result<seq<Credential>, Error>): Result<seq<Credential>, Error> {
    if r.Ok? then Ok(found + r.value) else r
  }

  /** One turn of the lookup loop, in terms of what remains to be resolved. */
  lemma ResolveOne(s: State, entries: seq<KV>, i: nat, found: seq<Credential>)
    requires i < |entries| && Splittable(entries[i..])
    ensures Splittable(entries[i + 1..])
    ensures ResolveEntry(s, entries[i]).Skip? ==>
              Prepend(found, ResolveIndex(s, entries[i..])) == Prepend(found, ResolveIndex(s, entries[i + 1..]))
    ensures ResolveEntry(s, entries[i]).Found? ==>
              Prepend(found, ResolveIndex(s, entries[i..]))
              == Prepend(found + [ResolveEntry(s, entries[i]).c], ResolveIndex(s, entries[i + 1..]))
    ensures ResolveEntry(s, entries[i]).Failed? ==>
              Prepend(found, ResolveIndex(s, entries[i..])) == Err(ResolveEntry(s, entries[i]).e)
  {
    assert entries[i..][1..] == entries[i + 1..];
    assert entries[i..][0] == entries[i];
    var rest := ResolveIndex(s, entries[i + 1..]);
    if ResolveEntry(s, entries[i]).Found? && rest.Ok? {
      var c := ResolveEntry(s, entries[i]).c;
      assert found + ([c] + rest.value) == (found + [c]) + rest.value;
    }
  }

  // ---------------------------------------------------------------------------
  // The chaincode's transactions

  method IssueCredential(ws: WorldState, rq: IssueRequest, ledgerTimestamp: string) returns (err: Option<Error>)
    modifies ws
    ensures var step := IssueStep(old(ws.state), rq, ledgerTimestamp);
      && (step.Ok? ==> err == None && ws.state == step.value)
      && (step.Err? ==> err == Some(step.error) && ws.state == old(ws.state))
  {
    var existing := ws.GetState(rq.docId);
    if !IsEmpty(existing) {
      return Some(AlreadyExists(rq.docId));
    }
    var attributes := DecodeAttributes(rq.attributesJSON);
    if attributes.Err? {
      return Some(attributes.error);
    }
    var record := NewCredential(rq, attributes.value, ledgerTimestamp);
    var issuerKey := IndexKey(IssuerDocIndex, rq.issuerId, rq.docId);
    if issuerKey.Err? {
      return Some(issuerKey.error);
    }
    var holderKey := IndexKey(HolderDocIndex, rq.holderId, rq.docId);
    if holderKey.Err? {
      return Some(holderKey.error);
    }
    var orgKey := IndexKey(IssuerOrgDocIndex, rq.issuerOrgId, rq.docId);
    if orgKey.Err? {
      return Some(orgKey.error);
    }
    ws.PutState(issuerKey.value, Sentinel);
    ws.PutState(holderKey.value, Sentinel);
    ws.PutState(orgKey.value, Sentinel);
    ws.PutState(rq.docId, Text(EncodeCredential(record)));
    return None;
  }

  method AddIssuerHolderRelationship(ws: WorldState, holderId: string, issuerId: string) returns (err: Option<Error>)
    modifies ws
    ensures var step := RelateStep(old(ws.state), holderId, issuerId);
      && (step.Ok? ==> err == None && ws.state == step.value)
      && (step.Err? ==> err == Some(step.error) && ws.state == old(ws.state))
  {
    var key := RelationshipKey(holderId, issuerId);
    if key.Err? {
      return Some(key.error);
    }
    var existing := ws.GetState(key.value);
    if !IsEmpty(existing) {
      return Some(AlreadyExists(key.value));
    }
    var relationship := IssuerHolderRelationship(holderId, issuerId, ActiveStatus);
    ws.PutState(key.value, Text(EncodeRelationship(relationship)));
    return None;
  }

  /** The shared body of AcceptCredential and DenyCredential. */
  method Decide(ws: WorldState, docId: string, accept: bool) returns (err: Option<Error>)
    modifies ws
    ensures var step := DecideStep(old(ws.state), docId, accept);
      && (step.Ok? ==> err == None && ws.state == step.value)
      && (step.Err? ==> err == Some(step.error) && ws.state == old(ws.state))
  {
    var data := ws.GetState(docId);
    if IsEmpty(data) {
      return Some(NotFound(docId));
    }
    var credential := DecodeCredential(data.value);
    if credential.Err? {
      return Some(credential.error);
    }
    var updated := credential.value.(accepted := accept, denied := !accept);
    ws.PutState(docId, Text(EncodeCredential(updated)));
    return None;
  }

  method AcceptCredential(ws: WorldState, docId: string) returns (err: Option<Error>)
    modifies ws
    ensures var step := DecideStep(old(ws.state), docId, true);
      && (step.Ok? ==> err == None && ws.state == step.value)
      && (step.Err? ==> err == Some(step.error) && ws.state == old(ws.state))
  {
    err := Decide(ws, docId, true);
  }

  method DenyCredential(ws: WorldState, docId: string) returns (err: Option<Error>)
    modifies ws
    ensures var step := DecideStep(old(ws.state), docId, false);
      && (step.Ok? ==> err == None && ws.state == step.value)
      && (step.Err? ==> err == Some(step.error) && ws.state == old(ws.state))
  {
    err := Decide(ws, docId, false);
  }

  method GrantAccess(ws: WorldState, docId: string, verifierId: string, grantedAt: string) returns (err: Option<Error>)
    modifies ws
    ensures var step := GrantStep(old(ws.state), docId, verifierId, grantedAt);
      && (step.Ok? ==> err == None && ws.state == step.value)
      && (step.Err? ==> err == Some(step.error) && ws.state == old(ws.state))
  {
    var data := ws.GetState(docId);
    if IsEmpty(data) {
      return Some(NotFound(docId));
    }
    var accessKey := CompositeKey.CreateCompositeKey(AccessIndex, [docId, verifierId]);
    if accessKey.Err? {
      return Some(accessKey.error);
    }
    var grant := AccessGrant(docId, verifierId, grantedAt);
    ws.PutState(accessKey.value, Text(EncodeAccessGrant(grant)));
    return None;
  }

  method GetAllCredentials(ws: WorldState) returns (r: Result<seq<Credential>, Error>)
    ensures r == Ok(DecodedCredentials(Scan(ws.state, EmptyKeySubstitute, "")))
  {
    var scanned := ws.GetStateByRange("", "");
    assert scanned == Ok(Scan(ws.state, EmptyKeySubstitute, ""));
    var entries := scanned.value;
    var credentials: seq<Credential> := [];
    var i := 0;
    while i < |entries|
      invariant 0 <= i <= |entries|
      invariant credentials == DecodedCredentials(entries[..i])
    {
      DecodedCredentialsStep(entries, i);
      var credential := DecodeCredential(entries[i].value);
      if credential.Ok? {
        credentials := credentials + [credential.value];
      }
      i := i + 1;
    }
    assert entries[..|entries|] == entries;
    return Ok(credentials);
  }

  /** The lookup shared by GetIssuerCredentials and GetHolderCredentials. */
  method LookupIndex(ws: WorldState, ns: string, id: string) returns (r: Result<seq<Credential>, Error>)
    ensures r == IndexLookup(ws.state, ns, id)
  {
    var scanned := ws.GetStateByPartialCompositeKey(ns, [id]);
    if scanned.Err? {
      return Err(scanned.error);
    }
    PartialScanSplittable(ws.state, ns, id);
    r := ResolveEntries(ws, scanned.value);
  }

  /** The loop over the index entries a lookup scanned. */
  method ResolveEntries(ws: WorldState, entries: seq<KV>) returns (r: Result<seq<Credential>, Error>)
    requires Splittable(entries)
    ensures r == ResolveIndex(ws.state, entries)
  {
    var credentials: seq<Credential> := [];
    var i := 0;
    assert entries[0..] == entries;
    assert ResolveIndex(ws.state, entries).Ok? ==> [] + ResolveIndex(ws.state, entries).value == ResolveIndex(ws.state, entries).value;
    while i < |entries|
      invariant 0 <= i <= |entries|
      invariant Splittable(entries[i..])
      invariant ResolveIndex(ws.state, entries) == Prepend(credentials, ResolveIndex(ws.state, entries[i..]))
    {
      ResolveOne(ws.state, entries, i, credentials);
      var (_, parts) := CompositeKey.SplitCompositeKey(entries[i].key);
      if |parts| < 2 {
        i := i + 1;
        continue;
      }
      var docId := parts[1];
      var docBytes := ws.GetState(docId);
      if IsEmpty(docBytes) {
        i := i + 1;
        continue;
      }
      var credential := DecodeCredential(docBytes.value);
      if credential.Err? {
        return Err(credential.error);
      }
      credentials := credentials + [credential.value];
      i := i + 1;
    }
    assert entries[i..] == [];
    assert credentials + [] == credentials;
    return Ok(credentials);
  }

  method GetIssuerCredentials(ws: WorldState, issuerOrgId: string) returns (r: Result<seq<Credential>, Error>)
    ensures r == IndexLookup(ws.state, IssuerOrgDocIndex, issuerOrgId)
  {
    r := LookupIndex(ws, IssuerOrgDocIndex, issuerOrgId);
  }

  method GetHolderCredentials(ws: WorldState, holderId: string) returns (r: Result<seq<Credential>, Error>)
    ensures r == IndexLookup(ws.state, HolderDocIndex, holderId)
  {
    r := LookupIndex(ws, HolderDocIndex, holderId);
  }
}
