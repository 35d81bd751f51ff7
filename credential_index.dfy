/** The agreement between the credential records and the three document
    indexes that every transaction of the credential chaincode keeps, and what
    it buys: holder and issuer-organisation lookups that return exactly the
    matching records. */
module CredentialIndex {
  import opened Wrappers
  import opened Errors
  import opened Json
  import opened Shim
  import opened CompositeKey
  import LexOrder
  import opened CredentialChaincode
  import opened CredentialProperties

  predicate IsDocIndex(ns: string) {
    ns == IssuerDocIndex || ns == HolderDocIndex || ns == IssuerOrgDocIndex
  }

  /** The credential field that each document index is keyed by. */
  function IndexedField(ns: string, c: Credential): string {
    if ns == IssuerDocIndex then c.issuerId
    else if ns == HolderDocIndex then c.holderId
    else c.issuerOrgId
  }

  /** The entry of index `ns` for credential `c` stored at `d` is present. */
  predicate Indexed(s: State, ns: string, c: Credential, d: string) {
    IndexKey(ns, IndexedField(ns, c), d).Ok? && IndexKey(ns, IndexedField(ns, c), d).value in s
  }

  /** The value at a simple key is a credential naming that key, not both
      accepted and denied, with its three index entries present. */
  predicate RecordSound(s: State, d: string)
    requires d in s
  {
    DecodeCredential(s[d]).Ok? &&
    var c := DecodeCredential(s[d]).value;
    && c.docId == d
    && !(c.accepted && c.denied)
    && Indexed(s, IssuerDocIndex, c, d)
    && Indexed(s, HolderDocIndex, c, d)
    && Indexed(s, IssuerOrgDocIndex, c, d)
  }

  /** An entry of a document index holds the one-byte payload, and its key's
      components are the namespace, the indexed value and a simple key whose
      record carries that value. */
  predicate EntrySound(s: State, k: string)
    requires k in s
  {
    var parts := Components(k);
    && |parts| == 3
    && s[k] == Sentinel
    && !IsComposite(parts[2])
    && parts[2] in s
    && DecodeCredential(s[parts[2]]).Ok?
    && IndexedField(parts[0], DecodeCredential(s[parts[2]]).value) == parts[1]
  }

  predicate IsEntryKey(k: string) {
    IsComposite(k) && Components(k) != [] && IsDocIndex(Components(k)[0])
  }

  predicate Consistent(s: State) {
    && (forall d :: d in s && !IsComposite(d) ==> RecordSound(s, d))
    && (forall k :: k in s && IsEntryKey(k) ==> EntrySound(s, k))
  }

  /** The ledger starts out consistent. */
  lemma EmptyConsistent()
    ensures Consistent(map[])
  {
  }

  // ---------------------------------------------------------------------------
  // Preservation

  /** Writing any value under a composite key outside the document indexes
      keeps the invariant: such keys are neither records nor index entries. */
  lemma ForeignWritePreserves(s: State, k: string, v: Blob)
    requires Consistent(s)
    requires IsComposite(k) && !IsEntryKey(k)
    ensures Consistent(s[k := v])
  {
    var s' := s[k := v];
    forall d | d in s' && !IsComposite(d) ensures RecordSound(s', d) {
      assert d != k && s'[d] == s[d];
      assert RecordSound(s, d);
    }
    forall e | e in s' && IsEntryKey(e) ensures EntrySound(s', e) {
      assert e != k && e in s && EntrySound(s, e);
      assert Components(e)[2] != k;
    }
  }

  lemma RelatePreserves(s: State, holderId: string, issuerId: string)
    requires Consistent(s) && RelateStep(s, holderId, issuerId).Ok?
    ensures Consistent(RelateStep(s, holderId, issuerId).value)
  {
    var key := RelationshipKey(holderId, issuerId).value;
    SplitRoundTrip(RelationshipIndex, [holderId, issuerId]);
    ForeignWritePreserves(s, key, Text(EncodeRelationship(IssuerHolderRelationship(holderId, issuerId, ActiveStatus))));
  }

  lemma GrantPreserves(s: State, docId: string, verifierId: string, grantedAt: string)
    requires Consistent(s) && GrantStep(s, docId, verifierId, grantedAt).Ok?
    ensures Consistent(GrantStep(s, docId, verifierId, grantedAt).value)
  {
    var key := CreateCompositeKey(AccessIndex, [docId, verifierId]).value;
    SplitRoundTrip(AccessIndex, [docId, verifierId]);
    ForeignWritePreserves(s, key, Text(EncodeAccessGrant(AccessGrant(docId, verifierId, grantedAt))));
  }

  /** Accepting or denying keeps the invariant: on a record it changes only the
      flags, which no index depends on; an index entry never decodes, so it is
      never rewritten; any other composite key is foreign. */
  lemma DecidePreserves(s: State, docId: string, accept: bool)
    requires Consistent(s) && DecideStep(s, docId, accept).Ok?
    ensures Consistent(DecideStep(s, docId, accept).value)
  {
    var s' := DecideStep(s, docId, accept).value;
    DecideWrites(s, docId, accept, s');
    if IsEntryKey(docId) {
      assert EntrySound(s, docId);
      SentinelIsNotCredential();
      assert false;
    } else if IsComposite(docId) {
      ForeignWritePreserves(s, docId, s'[docId]);
      assert s' == s[docId := s'[docId]];
    } else {
      var c := ReadCredential(s, docId).value;
      assert RecordSound(s, docId);
      forall d | d in s' && !IsComposite(d) ensures RecordSound(s', d) {
        assert RecordSound(s, d);
        if d == docId {
          assert DecodeCredential(s'[d]).value == c.(accepted := accept, denied := !accept);
        }
      }
      forall e | e in s' && IsEntryKey(e) ensures EntrySound(s', e) {
        assert e in s && EntrySound(s, e);
      }
    }
  }

  /** A document id that issuance accepts is part of three composite keys, so
      it holds no U+0000 and lies outside the composite-key namespace. */
  lemma IssuedIdIsSimple(s: State, rq: IssueRequest, ledgerTimestamp: string)
    requires IssueStep(s, rq, ledgerTimestamp).Ok?
    ensures !IsComposite(rq.docId)
  {
    IssueOutcome(s, rq, ledgerTimestamp);
    ValidHasNoNul(rq.docId);
    if rq.docId != [] {
      assert rq.docId[0] in rq.docId;
    }
  }

  /** Every successful issuance keeps the invariant. */
  lemma IssuePreserves(s: State, rq: IssueRequest, ledgerTimestamp: string)
    requires Consistent(s) && IssueStep(s, rq, ledgerTimestamp).Ok?
    ensures Consistent(IssueStep(s, rq, ledgerTimestamp).value)
  {
    var s' := IssueStep(s, rq, ledgerTimestamp).value;
    IssueRecordSound(s, rq, ledgerTimestamp);
    IssueKeepsRecords(s, rq, ledgerTimestamp);
    IssueKeepsEntries(s, rq, ledgerTimestamp);
  }

  lemma IssueRecordSound(s: State, rq: IssueRequest, ledgerTimestamp: string)
    requires IssueStep(s, rq, ledgerTimestamp).Ok?
    ensures rq.docId in IssueStep(s, rq, ledgerTimestamp).value
    ensures RecordSound(IssueStep(s, rq, ledgerTimestamp).value, rq.docId)
  {
    var s' := IssueStep(s, rq, ledgerTimestamp).value;
    IssueStoresRecord(s, rq, ledgerTimestamp, s');
    IssueFootprint(s, rq, ledgerTimestamp, s');
  }

  lemma IssueKeepsRecords(s: State, rq: IssueRequest, ledgerTimestamp: string)
    requires Consistent(s) && IssueStep(s, rq, ledgerTimestamp).Ok?
    ensures forall d :: d in IssueStep(s, rq, ledgerTimestamp).value && !IsComposite(d) && d != rq.docId ==>
              RecordSound(IssueStep(s, rq, ledgerTimestamp).value, d)
  {
    var s' := IssueStep(s, rq, ledgerTimestamp).value;
    IssueFootprint(s, rq, ledgerTimestamp, s');
    forall d | d in s' && !IsComposite(d) && d != rq.docId ensures RecordSound(s', d) {
      assert Get(s', d) == Get(s, d);
      assert RecordSound(s, d);
    }
  }

  lemma IssueKeepsEntries(s: State, rq: IssueRequest, ledgerTimestamp: string)
    requires Consistent(s) && IssueStep(s, rq, ledgerTimestamp).Ok?
    ensures forall e :: e in IssueStep(s, rq, ledgerTimestamp).value && IsEntryKey(e) ==>
              EntrySound(IssueStep(s, rq, ledgerTimestamp).value, e)
  {
    IssuedIdIsSimple(s, rq, ledgerTimestamp);
    var s' := IssueStep(s, rq, ledgerTimestamp).value;
    IssueFootprint(s, rq, ledgerTimestamp, s');
    IssueStoresRecord(s, rq, ledgerTimestamp, s');
    var c := NewCredential(rq, DecodeAttributes(rq.attributesJSON).value, ledgerTimestamp);
    var k1 := IndexKey(IssuerDocIndex, rq.issuerId, rq.docId).value;
    var k2 := IndexKey(HolderDocIndex, rq.holderId, rq.docId).value;
    var k3 := IndexKey(IssuerOrgDocIndex, rq.issuerOrgId, rq.docId).value;
    SplitRoundTrip(IssuerDocIndex, [rq.issuerId, rq.docId]);
    SplitRoundTrip(HolderDocIndex, [rq.holderId, rq.docId]);
    SplitRoundTrip(IssuerOrgDocIndex, [rq.issuerOrgId, rq.docId]);
    forall e | e in s' && IsEntryKey(e) ensures EntrySound(s', e) {
      if e == k1 || e == k2 || e == k3 {
        assert s'[rq.docId] == Text(EncodeCredential(c));
      } else {
        assert e != rq.docId && e in s && EntrySound(s, e);
        var d := Components(e)[2];
        assert d != rq.docId;
        assert Get(s', d) == Get(s, d);
      }
    }
  }

  // ---------------------------------------------------------------------------
  // Lookups

  /** A lookup over entries that all resolve returns the credentials they
      resolve to. */
  lemma {:induction false} ResolveAllFound(s: State, entries: seq<KV>)
    requires Splittable(entries)
    requires forall i :: 0 <= i < |entries| ==> !ResolveEntry(s, entries[i]).Failed?
    ensures ResolveIndex(s, entries).Ok?
    ensures forall c :: c in ResolveIndex(s, entries).value <==>
              exists i :: 0 <= i < |entries| && ResolveEntry(s, entries[i]) == Found(c)
  {
    if entries != [] {
      var rest := entries[1..];
      assert forall i :: 0 <= i < |rest| ==> rest[i] == entries[i + 1];
      ResolveAllFound(s, rest);
      forall c ensures c in ResolveIndex(s, entries).value <==>
                         exists i :: 0 <= i < |entries| && ResolveEntry(s, entries[i]) == Found(c)
      {
        if exists i :: 0 <= i < |entries| && ResolveEntry(s, entries[i]) == Found(c) {
          var i :| 0 <= i < |entries| && ResolveEntry(s, entries[i]) == Found(c);
          if i > 0 {
            assert ResolveEntry(s, rest[i - 1]) == Found(c);
          }
        }
        if c in ResolveIndex(s, rest).value {
          var i :| 0 <= i < |rest| && ResolveEntry(s, rest[i]) == Found(c);
          assert ResolveEntry(s, entries[i + 1]) == Found(c);
        }
      }
    }
  }

  /** Under the invariant, every key the lookup scans is a sound index entry
      and resolves to the record it names. */
  lemma ScannedEntryResolves(s: State, ns: string, id: string, k: string)
    requires Consistent(s) && IsDocIndex(ns)
    requires CreateCompositeKey(ns, [id]).Ok?
    requires k in s && InRange(k, CreateCompositeKey(ns, [id]).value, CreateCompositeKey(ns, [id]).value + [LexOrder.Top])
    ensures |Components(k)| == 3
    ensures var d := Components(k)[2];
      && d in s && !IsComposite(d) && DecodeCredential(s[d]).Ok?
      && IndexedField(ns, DecodeCredential(s[d]).value) == id
      && ResolveEntry(s, KV(k, s[k])) == Found(DecodeCredential(s[d]).value)
  {
    var p := CreateCompositeKey(ns, [id]).value;
    PartialRangeComponents(ns, [id], k);
    LexOrder.BetweenIsExtension(p, k);
    assert k[0] == p[0];
    assert Components(k)[0] == ns && Components(k)[1] == id;
    assert IsEntryKey(k) && EntrySound(s, k);
  }

  /** Under the invariant, every record whose indexed field is `id` has an
      entry among the keys the lookup scans. */
  lemma RecordIsScanned(s: State, ns: string, id: string, d: string)
    requires Consistent(s) && IsDocIndex(ns)
    requires d in s && !IsComposite(d) && DecodeCredential(s[d]).Ok?
    requires IndexedField(ns, DecodeCredential(s[d]).value) == id
    ensures CreateCompositeKey(ns, [id]).Ok?
    ensures var p := CreateCompositeKey(ns, [id]).value;
      && IndexKey(ns, id, d).Ok?
      && IndexKey(ns, id, d).value in ScanKeys(s, p, p + [LexOrder.Top])
  {
    assert RecordSound(s, d);
    var c := DecodeCredential(s[d]).value;
    assert Indexed(s, ns, c, d);
    assert [id] + [d] == [id, d];
    ExtensionInPartialRange(ns, [id], [d]);
  }

  /** The pairs a lookup for `id` in index `ns` scans. */
  ghost function Scanned(s: State, ns: string, id: string): seq<KV>
    requires CreateCompositeKey(ns, [id]).Ok?
  {
    var p := CreateCompositeKey(ns, [id]).value;
    Scan(s, p, p + [LexOrder.Top])
  }

  /** Under the invariant no scanned entry fails, so the lookup succeeds with
      what the entries resolve to. */
  lemma LookupResolves(s: State, ns: string, id: string)
    requires Consistent(s) && IsDocIndex(ns)
    requires CreateCompositeKey(ns, [id]).Ok?
    ensures Splittable(Scanned(s, ns, id))
    ensures IndexLookup(s, ns, id) == ResolveIndex(s, Scanned(s, ns, id))
    ensures ResolveIndex(s, Scanned(s, ns, id)).Ok?
    ensures forall c :: c in ResolveIndex(s, Scanned(s, ns, id)).value <==>
              exists i :: 0 <= i < |Scanned(s, ns, id)| && ResolveEntry(s, Scanned(s, ns, id)[i]) == Found(c)
  {
    var p := CreateCompositeKey(ns, [id]).value;
    var keys := ScanKeys(s, p, p + [LexOrder.Top]);
    var entries := Scanned(s, ns, id);
    PartialScanSplittable(s, ns, id);
    forall i | 0 <= i < |entries| ensures !ResolveEntry(s, entries[i]).Failed? {
      assert keys[i] in keys;
      ScannedEntryResolves(s, ns, id, keys[i]);
    }
    ResolveAllFound(s, entries);
  }

  /** What a scanned entry resolves to is a stored record with the id. */
  lemma FoundIsRecord(s: State, ns: string, id: string, i: nat, c: Credential)
    requires Consistent(s) && IsDocIndex(ns)
    requires CreateCompositeKey(ns, [id]).Ok?
    requires Splittable(Scanned(s, ns, id))
    requires i < |Scanned(s, ns, id)| && ResolveEntry(s, Scanned(s, ns, id)[i]) == Found(c)
    ensures exists d :: d in s && !IsComposite(d) && DecodeCredential(s[d]) == Ok(c) && IndexedField(ns, c) == id
  {
    var p := CreateCompositeKey(ns, [id]).value;
    var keys := ScanKeys(s, p, p + [LexOrder.Top]);
    assert keys[i] in keys;
    ScannedEntryResolves(s, ns, id, keys[i]);
    var d := Components(keys[i])[2];
    assert DecodeCredential(s[d]) == Ok(c);
  }

  /** A stored record with the id is what some scanned entry resolves to. */
  lemma RecordIsFound(s: State, ns: string, id: string, d: string, c: Credential)
    requires Consistent(s) && IsDocIndex(ns)
    requires CreateCompositeKey(ns, [id]).Ok?
    requires Splittable(Scanned(s, ns, id))
    requires d in s && !IsComposite(d) && DecodeCredential(s[d]) == Ok(c) && IndexedField(ns, c) == id
    ensures exists i :: 0 <= i < |Scanned(s, ns, id)| && ResolveEntry(s, Scanned(s, ns, id)[i]) == Found(c)
  {
    var p := CreateCompositeKey(ns, [id]).value;
    var keys := ScanKeys(s, p, p + [LexOrder.Top]);
    RecordIsScanned(s, ns, id, d);
    var k := IndexKey(ns, id, d).value;
    var i :| 0 <= i < |keys| && keys[i] == k;
    ScannedEntryResolves(s, ns, id, k);
    SplitRoundTrip(ns, [id, d]);
    assert Scanned(s, ns, id)[i] == KV(k, s[k]);
  }

  /** GetHolderCredentials (holder~doc) and GetIssuerCredentials
      (issuerOrg~doc) return exactly the stored credentials whose indexed field
      is the requested id; the lookup fails only for an id the shim refuses. */
  lemma LookupExact(s: State, ns: string, id: string)
    requires Consistent(s) && IsDocIndex(ns)
    ensures IndexLookup(s, ns, id).Ok? <==> ValidAttribute(id)
    ensures IndexLookup(s, ns, id).Ok? ==>
      forall c :: c in IndexLookup(s, ns, id).value <==>
        exists d :: d in s && !IsComposite(d) && DecodeCredential(s[d]) == Ok(c) && IndexedField(ns, c) == id
  {
    NamespacesValid();
    assert AllValid([id]) <==> ValidAttribute(id) by {
      assert [id][0] == id;
    }
    if ValidAttribute(id) {
      LookupResolves(s, ns, id);
      forall c ensures c in IndexLookup(s, ns, id).value <==>
        exists d :: d in s && !IsComposite(d) && DecodeCredential(s[d]) == Ok(c) && IndexedField(ns, c) == id
      {
        if c in IndexLookup(s, ns, id).value {
          var i :| 0 <= i < |Scanned(s, ns, id)| && ResolveEntry(s, Scanned(s, ns, id)[i]) == Found(c);
          FoundIsRecord(s, ns, id, i, c);
        }
        if exists d :: d in s && !IsComposite(d) && DecodeCredential(s[d]) == Ok(c) && IndexedField(ns, c) == id {
          var d :| d in s && !IsComposite(d) && DecodeCredential(s[d]) == Ok(c) && IndexedField(ns, c) == id;
          RecordIsFound(s, ns, id, d, c);
        }
      }
    }
  }

  /** Every credential GetAllCredentials lists is stored under a non-empty
      simple key. */
  lemma ListedIsStored(s: State, c: Credential)
    requires c in DecodedCredentials(Scan(s, EmptyKeySubstitute, ""))
    ensures exists d :: d in s && d != [] && !IsComposite(d) && DecodeCredential(s[d]) == Ok(c)
  {
    FullScanIsSimpleKeys(s);
    var keys := ScanKeys(s, EmptyKeySubstitute, "");
    var entries := Scan(s, EmptyKeySubstitute, "");
    DecodedCredentialsMembers(entries);
    var i :| 0 <= i < |entries| && DecodeCredential(entries[i].value) == Ok(c);
    assert keys[i] in keys;
    assert DecodeCredential(s[keys[i]]) == Ok(c);
  }

  /** Every credential stored under a non-empty simple key is listed. */
  lemma StoredIsListed(s: State, d: string, c: Credential)
    requires d in s && d != [] && !IsComposite(d) && DecodeCredential(s[d]) == Ok(c)
    ensures c in DecodedCredentials(Scan(s, EmptyKeySubstitute, ""))
  {
    FullScanIsSimpleKeys(s);
    var keys := ScanKeys(s, EmptyKeySubstitute, "");
    var entries := Scan(s, EmptyKeySubstitute, "");
    DecodedCredentialsMembers(entries);
    assert d in keys;
    var i :| 0 <= i < |keys| && keys[i] == d;
    assert DecodeCredential(entries[i].value) == Ok(c);
  }

  /** GetAllCredentials returns exactly the credentials stored under the
      non-empty simple keys; values that do not decode are skipped. */
  lemma AllCredentialsExact(s: State)
    ensures forall c :: c in DecodedCredentials(Scan(s, EmptyKeySubstitute, "")) <==>
      exists d :: d in s && d != [] && !IsComposite(d) && DecodeCredential(s[d]) == Ok(c)
  {
    forall c ensures c in DecodedCredentials(Scan(s, EmptyKeySubstitute, "")) <==>
      exists d :: d in s && d != [] && !IsComposite(d) && DecodeCredential(s[d]) == Ok(c)
    {
      if c in DecodedCredentials(Scan(s, EmptyKeySubstitute, "")) {
        ListedIsStored(s, c);
      }
      if exists d :: d in s && d != [] && !IsComposite(d) && DecodeCredential(s[d]) == Ok(c) {
        var d :| d in s && d != [] && !IsComposite(d) && DecodeCredential(s[d]) == Ok(c);
        StoredIsListed(s, d, c);
      }
    }
  }
}
