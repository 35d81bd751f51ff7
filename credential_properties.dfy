/** What the credential chaincode's transactions promise, one transaction or a
    pair of them at a time. */
module CredentialProperties {
  import opened Wrappers
  import opened Errors
  import opened Json
  import opened Shim
  import CompositeKey
  import opened CredentialChaincode

  /** The ids IssueCredential puts into composite keys are all acceptable to
      the shim. */
  predicate IssueKeysValid(rq: IssueRequest) {
    && CompositeKey.ValidAttribute(rq.issuerId)
    && CompositeKey.ValidAttribute(rq.holderId)
    && CompositeKey.ValidAttribute(rq.issuerOrgId)
    && CompositeKey.ValidAttribute(rq.docId)
  }

  /** When issuance fails, and with which error: an occupied document id first,
      then unparsable attributes, then an id the shim refuses in a key. */
  lemma IssueOutcome(s: State, rq: IssueRequest, ledgerTimestamp: string)
    ensures !IsEmpty(Get(s, rq.docId)) ==> IssueStep(s, rq, ledgerTimestamp) == Err(AlreadyExists(rq.docId))
    ensures IsEmpty(Get(s, rq.docId)) && DecodeAttributes(rq.attributesJSON).Err? ==>
              IssueStep(s, rq, ledgerTimestamp) == Err(Undecodable)
    ensures IsEmpty(Get(s, rq.docId)) && DecodeAttributes(rq.attributesJSON).Ok? && !IssueKeysValid(rq) ==>
              IssueStep(s, rq, ledgerTimestamp) == Err(InvalidKey)
    ensures IssueStep(s, rq, ledgerTimestamp).Ok? <==>
              IsEmpty(Get(s, rq.docId)) && DecodeAttributes(rq.attributesJSON).Ok? && IssueKeysValid(rq)
  {
    PairKeyValid(IssuerDocIndex, rq.issuerId, rq.docId);
    PairKeyValid(HolderDocIndex, rq.holderId, rq.docId);
    PairKeyValid(IssuerOrgDocIndex, rq.issuerOrgId, rq.docId);
    var b := rq.attributesJSON;
    if b.Text? && b.doc.JObject? {
      var g := b.doc.fields;
      if !(forall k :: k in g ==> g[k].JString? || g[k].JNull?) {
        assert StringMap(b.doc) == Err(Undecodable);
      }
    }
  }

  /** Issuance depends on the store only through what is stored at the
      document id: the relationship registry is never consulted. */
  lemma IssueIgnoresRegistry(s1: State, s2: State, rq: IssueRequest, ledgerTimestamp: string)
    requires Get(s1, rq.docId) == Get(s2, rq.docId)
    ensures IssueStep(s1, rq, ledgerTimestamp).Ok? <==> IssueStep(s2, rq, ledgerTimestamp).Ok?
    ensures IssueStep(s1, rq, ledgerTimestamp).Err? ==>
              IssueStep(s1, rq, ledgerTimestamp) == IssueStep(s2, rq, ledgerTimestamp)
  {
  }

  /** The state a successful issuance leaves. */
  lemma IssueShape(s: State, rq: IssueRequest, ledgerTimestamp: string, s': State)
    requires IssueStep(s, rq, ledgerTimestamp) == Ok(s')
    ensures DecodeAttributes(rq.attributesJSON).Ok?
    ensures IndexKey(IssuerDocIndex, rq.issuerId, rq.docId).Ok?
    ensures IndexKey(HolderDocIndex, rq.holderId, rq.docId).Ok?
    ensures IndexKey(IssuerOrgDocIndex, rq.issuerOrgId, rq.docId).Ok?
    ensures s' == s[IndexKey(IssuerDocIndex, rq.issuerId, rq.docId).value := Sentinel]
                   [IndexKey(HolderDocIndex, rq.holderId, rq.docId).value := Sentinel]
                   [IndexKey(IssuerOrgDocIndex, rq.issuerOrgId, rq.docId).value := Sentinel]
                   [rq.docId := Text(EncodeCredential(NewCredential(rq, DecodeAttributes(rq.attributesJSON).value, ledgerTimestamp)))]
  {
  }

  /** The three index keys and the document id are four different keys. */
  lemma IssueKeysDistinct(rq: IssueRequest)
    requires IndexKey(IssuerDocIndex, rq.issuerId, rq.docId).Ok?
    requires IndexKey(HolderDocIndex, rq.holderId, rq.docId).Ok?
    requires IndexKey(IssuerOrgDocIndex, rq.issuerOrgId, rq.docId).Ok?
    ensures var k1 := IndexKey(IssuerDocIndex, rq.issuerId, rq.docId).value;
      var k2 := IndexKey(HolderDocIndex, rq.holderId, rq.docId).value;
      var k3 := IndexKey(IssuerOrgDocIndex, rq.issuerOrgId, rq.docId).value;
      rq.docId != k1 && rq.docId != k2 && rq.docId != k3 && k1 != k2 && k1 != k3 && k2 != k3
  {
    CompositeKey.KeyLongerThanAttribute(IssuerDocIndex, [rq.issuerId, rq.docId], 1);
    CompositeKey.KeyLongerThanAttribute(HolderDocIndex, [rq.holderId, rq.docId], 1);
    CompositeKey.KeyLongerThanAttribute(IssuerOrgDocIndex, [rq.issuerOrgId, rq.docId], 1);
    DistinctNamespaces(IssuerDocIndex, HolderDocIndex, [rq.issuerId, rq.docId], [rq.holderId, rq.docId]);
    DistinctNamespaces(IssuerDocIndex, IssuerOrgDocIndex, [rq.issuerId, rq.docId], [rq.issuerOrgId, rq.docId]);
    DistinctNamespaces(HolderDocIndex, IssuerOrgDocIndex, [rq.holderId, rq.docId], [rq.issuerOrgId, rq.docId]);
  }

  /** Three writes of `v` and one of `w` under four distinct keys. */
  lemma FourWrites(s: State, d: string, k1: string, k2: string, k3: string, v: Blob, w: Blob)
    requires d != k1 && d != k2 && d != k3 && k1 != k2 && k1 != k3 && k2 != k3
    ensures var s' := s[k1 := v][k2 := v][k3 := v][d := w];
      && s'.Keys == s.Keys + {d, k1, k2, k3}
      && (forall k :: k !in {d, k1, k2, k3} ==> Get(s', k) == Get(s, k))
      && Get(s', d) == Some(w) && Get(s', k1) == Some(v) && Get(s', k2) == Some(v) && Get(s', k3) == Some(v)
  {
  }

  /** The record a successful issuance stores under the document id holds
      exactly the inputs, the ledger timestamp and neither flag. */
  lemma IssueStoresRecord(s: State, rq: IssueRequest, ledgerTimestamp: string, s': State)
    requires IssueStep(s, rq, ledgerTimestamp) == Ok(s')
    ensures DecodeAttributes(rq.attributesJSON).Ok?
    ensures var c := NewCredential(rq, DecodeAttributes(rq.attributesJSON).value, ledgerTimestamp);
      && ReadCredential(s', rq.docId) == Ok(c)
      && c.docId == rq.docId && c.docHash == rq.docHash && c.holderId == rq.holderId
      && c.issuerId == rq.issuerId && c.issuerOrgId == rq.issuerOrgId
      && c.attributes == DecodeAttributes(rq.attributesJSON).value
      && c.ledgerTimestamp == ledgerTimestamp && !c.accepted && !c.denied
  {
    IssueShape(s, rq, ledgerTimestamp, s');
    CredentialRoundTrip(NewCredential(rq, DecodeAttributes(rq.attributesJSON).value, ledgerTimestamp));
  }

  /** A successful issuance writes the record and the one-byte payload under
      each of the three index keys (four distinct keys, by IssueKeysDistinct),
      and nothing else. */
  lemma IssueFootprint(s: State, rq: IssueRequest, ledgerTimestamp: string, s': State)
    requires IssueStep(s, rq, ledgerTimestamp) == Ok(s')
    ensures IndexKey(IssuerDocIndex, rq.issuerId, rq.docId).Ok?
    ensures IndexKey(HolderDocIndex, rq.holderId, rq.docId).Ok?
    ensures IndexKey(IssuerOrgDocIndex, rq.issuerOrgId, rq.docId).Ok?
    ensures var written := {rq.docId, IndexKey(IssuerDocIndex, rq.issuerId, rq.docId).value,
                            IndexKey(HolderDocIndex, rq.holderId, rq.docId).value,
                            IndexKey(IssuerOrgDocIndex, rq.issuerOrgId, rq.docId).value};
      && s'.Keys == s.Keys + written
      && (forall k :: k !in written ==> Get(s', k) == Get(s, k))
    ensures Get(s', IndexKey(IssuerDocIndex, rq.issuerId, rq.docId).value) == Some(Sentinel)
    ensures Get(s', IndexKey(HolderDocIndex, rq.holderId, rq.docId).value) == Some(Sentinel)
    ensures Get(s', IndexKey(IssuerOrgDocIndex, rq.issuerOrgId, rq.docId).value) == Some(Sentinel)
  {
    IssueShape(s, rq, ledgerTimestamp, s');
    IssueKeysDistinct(rq);
    FourWrites(s, rq.docId, IndexKey(IssuerDocIndex, rq.issuerId, rq.docId).value,
               IndexKey(HolderDocIndex, rq.holderId, rq.docId).value,
               IndexKey(IssuerOrgDocIndex, rq.issuerOrgId, rq.docId).value, Sentinel,
               Text(EncodeCredential(NewCredential(rq, DecodeAttributes(rq.attributesJSON).value, ledgerTimestamp))));
  }

  /** Keys in different namespaces differ. */
  lemma DistinctNamespaces(t1: string, t2: string, a1: seq<string>, a2: seq<string>)
    requires t1 != t2
    requires CompositeKey.CreateCompositeKey(t1, a1).Ok? && CompositeKey.CreateCompositeKey(t2, a2).Ok?
    ensures CompositeKey.CreateCompositeKey(t1, a1).value != CompositeKey.CreateCompositeKey(t2, a2).value
  {
    if CompositeKey.CreateCompositeKey(t1, a1).value == CompositeKey.CreateCompositeKey(t2, a2).value {
      CompositeKey.Injective(t1, a1, t2, a2);
    }
  }

  /** Accepting or denying needs a stored, decodable record. */
  lemma DecideOutcome(s: State, docId: string, accept: bool)
    ensures IsEmpty(Get(s, docId)) ==> DecideStep(s, docId, accept) == Err(NotFound(docId))
    ensures DecideStep(s, docId, accept).Ok? <==> ReadCredential(s, docId).Ok?
    ensures DecideStep(s, docId, accept).Err? ==> DecideStep(s, docId, accept).error == ReadCredential(s, docId).error
  {
  }

  /** A decision sets the flag pair to (accept, !accept), keeps every other field
      of the record and touches no other key. */
  lemma DecideWrites(s: State, docId: string, accept: bool, s': State)
    requires DecideStep(s, docId, accept) == Ok(s')
    ensures ReadCredential(s, docId).Ok?
    ensures ReadCredential(s', docId) == Ok(ReadCredential(s, docId).value.(accepted := accept, denied := !accept))
    ensures s'.Keys == s.Keys
    ensures forall k :: k != docId ==> Get(s', k) == Get(s, k)
  {
    var c := ReadCredential(s, docId).value;
    CredentialRoundTrip(c.(accepted := accept, denied := !accept));
  }

  /** Of two decisions on the same document, the later one wins: the state is
      as if only it had been made. Repeating a decision changes nothing. */
  lemma LastDecisionWins(s: State, docId: string, first: bool, second: bool)
    requires DecideStep(s, docId, first).Ok?
    ensures DecideStep(DecideStep(s, docId, first).value, docId, second) == DecideStep(s, docId, second)
    ensures DecideStep(DecideStep(s, docId, first).value, docId, first) == DecideStep(s, docId, first)
  {
    var s1 := DecideStep(s, docId, first).value;
    DecideWrites(s, docId, first, s1);
    var c := ReadCredential(s, docId).value;
    var c1 := ReadCredential(s1, docId).value;
    assert c1.(accepted := second, denied := !second) == c.(accepted := second, denied := !second);
    assert c1.(accepted := first, denied := !first) == c.(accepted := first, denied := !first);
    var v := Text(EncodeCredential(c.(accepted := second, denied := !second)));
    assert s1 == s[docId := Text(EncodeCredential(c.(accepted := first, denied := !first)))];
    assert s1[docId := v] == s[docId := v];
    var w := Text(EncodeCredential(c.(accepted := first, denied := !first)));
    assert s1[docId := w] == s[docId := w];
  }

  /** A new relationship is visible to the check, a second attempt for the same
      ordered pair is refused, and the one write is the active record under the
      pair's key; no value that was stored is replaced. */
  lemma RelateWrites(s: State, holderId: string, issuerId: string, s': State)
    requires RelateStep(s, holderId, issuerId) == Ok(s')
    ensures CheckIssuerHolderRelationship(s', holderId, issuerId) == Ok(true)
    ensures RelateStep(s', holderId, issuerId) == Err(AlreadyExists(RelationshipKey(holderId, issuerId).value))
    ensures forall k :: !IsEmpty(Get(s, k)) ==> Get(s', k) == Get(s, k)
    ensures Get(s', RelationshipKey(holderId, issuerId).value)
         == Some(Text(EncodeRelationship(IssuerHolderRelationship(holderId, issuerId, ActiveStatus))))
    ensures forall k :: k != RelationshipKey(holderId, issuerId).value ==> Get(s', k) == Get(s, k)
  {
  }

  /** The registry holds ordered pairs: recording (holder, issuer) says nothing
      about (issuer, holder) when the two differ. */
  lemma RelationshipIsOrdered(s: State, holderId: string, issuerId: string)
    requires holderId != issuerId
    requires RelateStep(s, holderId, issuerId).Ok?
    ensures CheckIssuerHolderRelationship(RelateStep(s, holderId, issuerId).value, issuerId, holderId)
         == CheckIssuerHolderRelationship(s, issuerId, holderId)
  {
    if RelationshipKey(issuerId, holderId).Ok?
       && RelationshipKey(issuerId, holderId).value == RelationshipKey(holderId, issuerId).value {
      CompositeKey.Injective(RelationshipIndex, [issuerId, holderId], RelationshipIndex, [holderId, issuerId]);
    }
  }

  /** After issuance, VerifyHash compares exactly against the issued hash. */
  lemma VerifyAfterIssue(s: State, rq: IssueRequest, ledgerTimestamp: string, hashToCheck: string)
    requires IssueStep(s, rq, ledgerTimestamp).Ok?
    ensures VerifyHash(IssueStep(s, rq, ledgerTimestamp).value, rq.docId, hashToCheck) == Ok(hashToCheck == rq.docHash)
  {
    IssueStoresRecord(s, rq, ledgerTimestamp, IssueStep(s, rq, ledgerTimestamp).value);
  }

  /** A decision never changes the outcome of VerifyHash. */
  lemma VerifyAfterDecide(s: State, docId: string, accept: bool, hashToCheck: string)
    requires DecideStep(s, docId, accept).Ok?
    ensures VerifyHash(DecideStep(s, docId, accept).value, docId, hashToCheck) == VerifyHash(s, docId, hashToCheck)
  {
    DecideWrites(s, docId, accept, DecideStep(s, docId, accept).value);
  }

  /** A grant needs a stored document, stores the grant under
      access/[document, verifier] and leaves the document's record alone. */
  lemma GrantWrites(s: State, docId: string, verifierId: string, grantedAt: string)
    ensures IsEmpty(Get(s, docId)) ==> GrantStep(s, docId, verifierId, grantedAt) == Err(NotFound(docId))
    ensures GrantStep(s, docId, verifierId, grantedAt).Ok? ==>
      var key := CompositeKey.CreateCompositeKey(AccessIndex, [docId, verifierId]).value;
      var s' := GrantStep(s, docId, verifierId, grantedAt).value;
      && Get(s', key) == Some(Text(EncodeAccessGrant(AccessGrant(docId, verifierId, grantedAt))))
      && Get(s', docId) == Get(s, docId)
      && (forall k :: k != key ==> Get(s', k) == Get(s, k))
  {
    if GrantStep(s, docId, verifierId, grantedAt).Ok? {
      CompositeKey.KeyLongerThanAttribute(AccessIndex, [docId, verifierId], 0);
    }
  }

  /** Granting again to the same verifier replaces the earlier grant. */
  lemma GrantUpserts(s: State, docId: string, verifierId: string, firstAt: string, secondAt: string)
    requires GrantStep(s, docId, verifierId, firstAt).Ok?
    ensures GrantStep(GrantStep(s, docId, verifierId, firstAt).value, docId, verifierId, secondAt)
         == GrantStep(s, docId, verifierId, secondAt)
  {
    GrantWrites(s, docId, verifierId, firstAt);
    var key := CompositeKey.CreateCompositeKey(AccessIndex, [docId, verifierId]).value;
    var s1 := GrantStep(s, docId, verifierId, firstAt).value;
    var v := Text(EncodeAccessGrant(AccessGrant(docId, verifierId, secondAt)));
    assert s1[key := v] == s[key := v];
  }

  /** GetAllCredentials lists what decodes, and only that, in scan order. */
  lemma {:induction false} DecodedCredentialsMembers(entries: seq<KV>)
    ensures forall c :: c in DecodedCredentials(entries) <==>
      exists i :: 0 <= i < |entries| && DecodeCredential(entries[i].value) == Ok(c)
    ensures |DecodedCredentials(entries)| <= |entries|
  {
    if entries != [] {
      var init := entries[..|entries| - 1];
      DecodedCredentialsMembers(init);
      forall c ensures c in DecodedCredentials(entries) <==>
        exists i :: 0 <= i < |entries| && DecodeCredential(entries[i].value) == Ok(c)
      {
        if c in DecodedCredentials(entries) && c in DecodedCredentials(init) {
          var i :| 0 <= i < |init| && DecodeCredential(init[i].value) == Ok(c);
          assert entries[i] == init[i];
        }
        if exists i :: 0 <= i < |entries| && DecodeCredential(entries[i].value) == Ok(c) {
          var i :| 0 <= i < |entries| && DecodeCredential(entries[i].value) == Ok(c);
          if i < |init| {
            assert init[i] == entries[i];
          }
        }
      }
    }
  }
}
