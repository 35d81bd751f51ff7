/** The TypeScript credential contract: a credential is a JSON object stored
    under its id, issued valid, verified by hash and validity, and revoked by
    its issuer. JavaScript's property access on the parsed value is modelled
    member by member: a missing member reads as `undefined`. */
module CredentialContract {
  import opened Wrappers
  import opened Errors
  import opened Json
  import opened Shim

  /** `value[name]` on a parsed object: the member, or `undefined` (None). */
  function Member(fields: map<string, Json>, name: string): Option<Json> {
    if name in fields then Some(fields[name]) else None
  }

  /** JavaScript truthiness of a parsed value; `undefined` is falsy. A number is
      falsy when it is +0 or -0 (JSON text cannot denote NaN). */
  predicate Truthy(v: Option<Json>) {
    match v
    case None => false
    case Some(JNull) => false
    case Some(JBool(b)) => b
    case Some(JNumber(n)) => n.bits & 0x7FFF_FFFF_FFFF_FFFF != 0
    case Some(JString(s)) => s != []
    case Some(_) => true
  }

  const NegativeZero: bv64 := 0x8000_0000_0000_0000

  /** What `JSON.stringify` writes, by its parse: a NaN or infinite number is
      written as `null` and -0 as `0`; everything else is kept, member by member
      and item by item. */
  function Stringified(j: Json): Json {
    match j
    case JNumber(n) =>
      if !Finite(n) then JNull
      else if n.bits == NegativeZero then JNumber(Float64(0))
      else j
    case JArray(items) => JArray(seq(|items|, i requires 0 <= i < |items| => Stringified(items[i])))
    case JObject(fields) => JObject(map k | k in fields :: Stringified(fields[k]))
    case _ => j
  }

  /** The JSON values `JSON.stringify` can write: no NaN, no infinity, no -0. */
  predicate Canonical(j: Json) {
    match j
    case JNumber(n) => Finite(n) && n.bits != NegativeZero
    case JArray(items) => forall i :: 0 <= i < |items| ==> Canonical(items[i])
    case JObject(fields) => forall k :: k in fields ==> Canonical(fields[k])
    case _ => true
  }

  /** Whatever is stringified is canonical. */
  lemma {:induction false} StringifiedIsCanonical(j: Json)
    ensures Canonical(Stringified(j))
  {
    match j
    case JArray(items) =>
      forall i | 0 <= i < |items| ensures Canonical(Stringified(j).items[i]) {
        StringifiedIsCanonical(items[i]);
      }
    case JObject(fields) =>
      forall k | k in fields ensures Canonical(Stringified(j).fields[k]) {
        StringifiedIsCanonical(fields[k]);
      }
    case _ =>
  }

  /** Stringifying a canonical value gives it back unchanged. */
  lemma {:induction false} CanonicalIsFixed(j: Json)
    requires Canonical(j)
    ensures Stringified(j) == j
  {
    match j
    case JArray(items) =>
      forall i | 0 <= i < |items| ensures Stringified(items[i]) == items[i] {
        CanonicalIsFixed(items[i]);
      }
      assert Stringified(j).items == items;
    case JObject(fields) =>
      forall k | k in fields ensures Stringified(fields[k]) == fields[k] {
        CanonicalIsFixed(fields[k]);
      }
      assert Stringified(j).fields == fields;
    case _ =>
  }

  /** Writing what was read back from a write changes nothing further. */
  lemma StringifyIdempotent(j: Json)
    ensures Stringified(Stringified(j)) == Stringified(j)
  {
    StringifiedIsCanonical(j);
    CanonicalIsFixed(Stringified(j));
  }

  /** A member of a stringified object, given the member before. */
  function StringifiedMember(v: Option<Json>): Option<Json> {
    match v
    case None => None
    case Some(x) => Some(Stringified(x))
  }

  /** The object issueCredential builds, before it is stringified. */
  function CredentialObject(hash: string, issuer: string, owner: string, metadata: Json, issuedAt: string): Json {
    JObject(map[
      "hash" := JString(hash),
      "issuer" := JString(issuer),
      "owner" := JString(owner),
      "metadata" := metadata,
      "issuedAt" := JString(issuedAt),
      "isValid" := JBool(true)])
  }

  /** issueCredential: parse the metadata (text that is not JSON throws before
      anything is written), then store the object, replacing whatever the id
      held. */
  function IssueStep(s: State, credentialId: string, hash: string, issuer: string, owner: string,
                     metadata: Blob, issuedAt: string): Result<State, Error>
  {
    match metadata
    case Raw(_) => Err(Undecodable)
    case Text(m) => Ok(s[credentialId := Text(Stringified(CredentialObject(hash, issuer, owner, m, issuedAt)))])
  }

  /** verifyCredential: throws for a missing or empty value, for text that is
      not JSON and for `null` (property access on null); otherwise compares the
      `hash` member strictly and takes the truthiness of `isValid`. A value that
      is not an object has neither member. */
  function VerifyCredential(s: State, credentialId: string, hash: string): (r: Result<bool, Error>)
    ensures IsEmpty(Get(s, credentialId)) ==> r == Err(NotFound(credentialId))
    ensures r == Ok(true) <==>
      && !IsEmpty(Get(s, credentialId))
      && s[credentialId].Text? && s[credentialId].doc.JObject?
      && Member(s[credentialId].doc.fields, "hash") == Some(JString(hash))
      && Truthy(Member(s[credentialId].doc.fields, "isValid"))
    ensures r.Err? <==>
      IsEmpty(Get(s, credentialId)) || s[credentialId].Raw? || s[credentialId].doc.JNull?
  {
    var bytes := Get(s, credentialId);
    if IsEmpty(bytes) then Err(NotFound(credentialId))
    else match bytes.value
      case Raw(_) => Err(Undecodable)
      case Text(JNull) => Err(Undecodable)
      case Text(JObject(fields)) =>
        Ok(Member(fields, "hash") == Some(JString(hash)) && Truthy(Member(fields, "isValid")))
      case Text(_) => Ok(false)
  }

  /** revokeCredential: throws for a missing or empty value, for text that is
      not JSON, for `null`, and unless the `issuer` member is exactly the
      caller's issuer; otherwise sets `isValid` to false and writes the object
      back. */
  function RevokeStep(s: State, credentialId: string, issuer: string): Result<State, Error> {
    var bytes := Get(s, credentialId);
    if IsEmpty(bytes) then Err(NotFound(credentialId))
    else match bytes.value
      case Raw(_) => Err(Undecodable)
      case Text(JNull) => Err(Undecodable)
      case Text(JObject(fields)) =>
        if Member(fields, "issuer") != Some(JString(issuer)) then Err(NotIssuer)
        else Ok(s[credentialId := Text(Stringified(JObject(fields["isValid" := JBool(false)])))])
      case Text(_) => Err(NotIssuer)
  }

  method IssueCredential(ws: WorldState, credentialId: string, hash: string, issuer: string, owner: string,
                         metadata: Blob, issuedAt: string) returns (err: Option<Error>)
    modifies ws
    ensures var step := IssueStep(old(ws.state), credentialId, hash, issuer, owner, metadata, issuedAt);
      && (step.Ok? ==> err == None && ws.state == step.value)
      && (step.Err? ==> err == Some(step.error) && ws.state == old(ws.state))
  {
    if metadata.Raw? {
      return Some(Undecodable);
    }
    var credential := CredentialObject(hash, issuer, owner, metadata.doc, issuedAt);
    ws.PutState(credentialId, Text(Stringified(credential)));
    return None;
  }

  method RevokeCredential(ws: WorldState, credentialId: string, issuer: string) returns (err: Option<Error>)
    modifies ws
    ensures var step := RevokeStep(old(ws.state), credentialId, issuer);
      && (step.Ok? ==> err == None && ws.state == step.value)
      && (step.Err? ==> err == Some(step.error) && ws.state == old(ws.state))
  {
    var bytes := ws.GetState(credentialId);
    if IsEmpty(bytes) {
      return Some(NotFound(credentialId));
    }
    if bytes.value.Raw? || bytes.value.doc.JNull? {
      return Some(Undecodable);
    }
    if !bytes.value.doc.JObject? {
      return Some(NotIssuer);
    }
    var credential := bytes.value.doc.fields;
    if Member(credential, "issuer") != Some(JString(issuer)) {
      return Some(NotIssuer);
    }
    credential := credential["isValid" := JBool(false)];
    ws.PutState(credentialId, Text(Stringified(JObject(credential))));
    return None;
  }

  // ---------------------------------------------------------------------------
  // Properties

  /** Stringifying the credential object stringifies its metadata and keeps
      every other member. */
  lemma StringifiedObject(hash: string, issuer: string, owner: string, metadata: Json, issuedAt: string)
    ensures Stringified(CredentialObject(hash, issuer, owner, metadata, issuedAt))
         == CredentialObject(hash, issuer, owner, Stringified(metadata), issuedAt)
  {
    var f := CredentialObject(hash, issuer, owner, metadata, issuedAt).fields;
    assert (map k | k in f :: Stringified(f[k])) == CredentialObject(hash, issuer, owner, Stringified(metadata), issuedAt).fields;
  }

  /** Issuance reads nothing: it fails only on metadata that is not JSON, and
      otherwise replaces the value under the id and nothing else; the metadata
      is stored as `JSON.stringify` writes it. */
  lemma IssueOverwrites(s: State, credentialId: string, hash: string, issuer: string, owner: string,
                        metadata: Blob, issuedAt: string)
    ensures IssueStep(s, credentialId, hash, issuer, owner, metadata, issuedAt).Ok? <==> metadata.Text?
    ensures metadata.Raw? ==> IssueStep(s, credentialId, hash, issuer, owner, metadata, issuedAt) == Err(Undecodable)
    ensures IssueStep(s, credentialId, hash, issuer, owner, metadata, issuedAt).Ok? ==>
      var s' := IssueStep(s, credentialId, hash, issuer, owner, metadata, issuedAt).value;
      && s'.Keys == s.Keys + {credentialId}
      && (forall k :: k != credentialId ==> Get(s', k) == Get(s, k))
      && Get(s', credentialId) == Some(Text(CredentialObject(hash, issuer, owner, Stringified(metadata.doc), issuedAt)))
  {
    if metadata.Text? {
      StringifiedObject(hash, issuer, owner, metadata.doc, issuedAt);
    }
  }

  /** Issuing twice under one id keeps only the second credential. */
  lemma SecondIssueWins(s: State, credentialId: string,
                        hash1: string, issuer1: string, owner1: string, metadata1: Blob, issuedAt1: string,
                        hash2: string, issuer2: string, owner2: string, metadata2: Blob, issuedAt2: string)
    requires IssueStep(s, credentialId, hash1, issuer1, owner1, metadata1, issuedAt1).Ok?
    ensures IssueStep(IssueStep(s, credentialId, hash1, issuer1, owner1, metadata1, issuedAt1).value,
                      credentialId, hash2, issuer2, owner2, metadata2, issuedAt2)
         == IssueStep(s, credentialId, hash2, issuer2, owner2, metadata2, issuedAt2)
  {
    if metadata2.Text? {
      var s1 := IssueStep(s, credentialId, hash1, issuer1, owner1, metadata1, issuedAt1).value;
      var v := Text(Stringified(CredentialObject(hash2, issuer2, owner2, metadata2.doc, issuedAt2)));
      assert s1[credentialId := v] == s[credentialId := v];
    }
  }

  /** A freshly issued credential verifies exactly for its own hash. */
  lemma VerifyAfterIssue(s: State, credentialId: string, hash: string, issuer: string, owner: string,
                         metadata: Blob, issuedAt: string, hashToCheck: string)
    requires IssueStep(s, credentialId, hash, issuer, owner, metadata, issuedAt).Ok?
    ensures VerifyCredential(IssueStep(s, credentialId, hash, issuer, owner, metadata, issuedAt).value,
                             credentialId, hashToCheck)
         == Ok(hashToCheck == hash)
  {
    var s' := IssueStep(s, credentialId, hash, issuer, owner, metadata, issuedAt).value;
    StringifiedObject(hash, issuer, owner, metadata.doc, issuedAt);
    var fields := CredentialObject(hash, issuer, owner, Stringified(metadata.doc), issuedAt).fields;
    assert Member(fields, "hash") == Some(JString(hash));
    assert Member(fields, "isValid") == Some(JBool(true));
  }

  /** Revocation throws, writing nothing, for a missing credential and for a
      caller who is not the recorded issuer. */
  lemma RevokeRefuses(s: State, credentialId: string, issuer: string)
    ensures IsEmpty(Get(s, credentialId)) ==> RevokeStep(s, credentialId, issuer) == Err(NotFound(credentialId))
    ensures !IsEmpty(Get(s, credentialId)) && s[credentialId].Text? && s[credentialId].doc.JObject?
            && Member(s[credentialId].doc.fields, "issuer") != Some(JString(issuer))
            ==> RevokeStep(s, credentialId, issuer) == Err(NotIssuer)
    ensures RevokeStep(s, credentialId, issuer).Ok? <==>
            !IsEmpty(Get(s, credentialId)) && s[credentialId].Text? && s[credentialId].doc.JObject?
            && Member(s[credentialId].doc.fields, "issuer") == Some(JString(issuer))
  {
  }

  /** Revocation sets `isValid` to false, writes every other member back as
      `JSON.stringify` writes it, and changes no other key. */
  lemma RevokeWrites(s: State, credentialId: string, issuer: string)
    requires RevokeStep(s, credentialId, issuer).Ok?
    ensures var s' := RevokeStep(s, credentialId, issuer).value;
      && s'.Keys == s.Keys
      && (forall k :: k != credentialId ==> Get(s', k) == Get(s, k))
      && s'[credentialId].Text? && s'[credentialId].doc.JObject?
      && Member(s'[credentialId].doc.fields, "isValid") == Some(JBool(false))
      && (forall name :: name != "isValid" ==>
            Member(s'[credentialId].doc.fields, name) == StringifiedMember(Member(s[credentialId].doc.fields, name)))
  {
    var f := s[credentialId].doc.fields["isValid" := JBool(false)];
    assert Stringified(JObject(f)).fields["isValid"] == Stringified(JBool(false));
  }

  /** After revocation no hash verifies. */
  lemma RevokedNeverVerifies(s: State, credentialId: string, issuer: string, hash: string)
    requires RevokeStep(s, credentialId, issuer).Ok?
    ensures VerifyCredential(RevokeStep(s, credentialId, issuer).value, credentialId, hash) == Ok(false)
  {
    RevokeWrites(s, credentialId, issuer);
  }

  /** Revoking again, by the same issuer, leaves the state as it was after the
      first revocation. */
  lemma RevokeIdempotent(s: State, credentialId: string, issuer: string)
    requires RevokeStep(s, credentialId, issuer).Ok?
    ensures RevokeStep(RevokeStep(s, credentialId, issuer).value, credentialId, issuer)
         == RevokeStep(s, credentialId, issuer)
  {
    var s1 := RevokeStep(s, credentialId, issuer).value;
    RevokeWrites(s, credentialId, issuer);
    var fields := s1[credentialId].doc.fields;
    assert fields["isValid" := JBool(false)] == fields;
    StringifyIdempotent(JObject(s[credentialId].doc.fields["isValid" := JBool(false)]));
    assert s1[credentialId := Text(Stringified(JObject(fields)))] == s1;
  }
}
