/** What the degree chaincode's transactions and listings promise. */
module DegreeProperties {
  import opened Wrappers
  import opened Errors
  import opened Json
  import opened Shim
  import CompositeKey
  import opened DegreeChaincode

  /** Issuance fails exactly when the document id holds a value; otherwise it
      stores the record holding the inputs, the issue time and no decision, and
      touches no other key. A GPA Marshal refuses still reports success, but
      leaves nothing under the id. */
  lemma IssueWrites(s: State, rq: DegreeRequest, issuedAt: string)
    ensures IssueStep(s, rq, issuedAt).Err? <==> !IsEmpty(Get(s, rq.docId))
    ensures IssueStep(s, rq, issuedAt).Err? ==> IssueStep(s, rq, issuedAt).error == AlreadyExists(rq.docId)
    ensures IssueStep(s, rq, issuedAt).Ok? && !Finite(rq.gpa) ==>
      var s' := IssueStep(s, rq, issuedAt).value;
      && s' == s - {rq.docId}
      && ReadDegree(s', rq.docId) == Err(NotFound(rq.docId))
    ensures IssueStep(s, rq, issuedAt).Ok? && Finite(rq.gpa) ==>
      var s' := IssueStep(s, rq, issuedAt).value;
      var r := NewDegree(rq, issuedAt);
      && ReadDegree(s', rq.docId) == Ok(r)
      && r.docId == rq.docId && r.docHash == rq.docHash && r.owner == rq.owner
      && r.universityId == rq.universityId && r.gpa == rq.gpa && r.issuedAt == issuedAt
      && !r.accepted && !r.denied
      && s'.Keys == s.Keys + {rq.docId}
      && (forall k :: k != rq.docId ==> Get(s', k) == Get(s, k))
  {
  }

  /** Issuance looks at nothing but the document id: the affiliation registry
      is not consulted. */
  lemma IssueIgnoresAffiliations(s1: State, s2: State, rq: DegreeRequest, issuedAt: string)
    requires Get(s1, rq.docId) == Get(s2, rq.docId)
    ensures IssueStep(s1, rq, issuedAt).Ok? <==> IssueStep(s2, rq, issuedAt).Ok?
    ensures IssueStep(s1, rq, issuedAt).Err? ==> IssueStep(s1, rq, issuedAt) == IssueStep(s2, rq, issuedAt)
  {
  }

  /** A decision needs a stored, decodable record, sets the flag pair to
      (accept, !accept), keeps every other field and touches no other key. */
  lemma DecideWrites(s: State, docId: string, accept: bool)
    ensures IsEmpty(Get(s, docId)) ==> DecideStep(s, docId, accept) == Err(NotFound(docId))
    ensures DecideStep(s, docId, accept).Ok? <==> ReadDegree(s, docId).Ok?
    ensures DecideStep(s, docId, accept).Ok? ==>
      var s' := DecideStep(s, docId, accept).value;
      && ReadDegree(s', docId) == Ok(ReadDegree(s, docId).value.(accepted := accept, denied := !accept))
      && s'.Keys == s.Keys
      && (forall k :: k != docId ==> Get(s', k) == Get(s, k))
  {
    if ReadDegree(s, docId).Ok? {
      DecodeFailsAsUndecodable(s[docId]);
    }
  }

  /** The later of two decisions wins; repeating a decision changes nothing. */
  lemma LastDecisionWins(s: State, docId: string, first: bool, second: bool)
    requires DecideStep(s, docId, first).Ok?
    ensures DecideStep(DecideStep(s, docId, first).value, docId, second) == DecideStep(s, docId, second)
    ensures DecideStep(DecideStep(s, docId, first).value, docId, first) == DecideStep(s, docId, first)
  {
    var s1 := DecideStep(s, docId, first).value;
    DecideWrites(s, docId, first);
    var r := ReadDegree(s, docId).value;
    var r1 := ReadDegree(s1, docId).value;
    assert r1.(accepted := second, denied := !second) == r.(accepted := second, denied := !second);
    assert r1.(accepted := first, denied := !first) == r.(accepted := first, denied := !first);
    assert s1 == s[docId := MarshalDegree(r.(accepted := first, denied := !first))];
    var v := MarshalDegree(r.(accepted := second, denied := !second));
    assert s1[docId := v] == s[docId := v];
    var w := MarshalDegree(r.(accepted := first, denied := !first));
    assert s1[docId := w] == s[docId := w];
  }

  /** A new affiliation is visible to the check, a second one for the same
      ordered pair is refused, and the one write is the active record under the
      pair's key; no stored value is replaced. */
  lemma AffiliateWrites(s: State, userId: string, universityId: string, s': State)
    requires AffiliateStep(s, userId, universityId) == Ok(s')
    ensures CheckAffiliation(s', userId, universityId) == Ok(true)
    ensures AffiliateStep(s', userId, universityId) == Err(AlreadyExists(AffiliationKey(userId, universityId).value))
    ensures forall k :: !IsEmpty(Get(s, k)) ==> Get(s', k) == Get(s, k)
    ensures Get(s', AffiliationKey(userId, universityId).value)
         == Some(Text(EncodeAffiliation(Affiliation(userId, universityId, ActiveStatus))))
    ensures forall k :: k != AffiliationKey(userId, universityId).value ==> Get(s', k) == Get(s, k)
  {
  }

  /** Affiliations are ordered pairs: recording (user, university) says nothing
      about (university, user) when the two differ. */
  lemma AffiliationIsOrdered(s: State, userId: string, universityId: string)
    requires userId != universityId
    requires AffiliateStep(s, userId, universityId).Ok?
    ensures CheckAffiliation(AffiliateStep(s, userId, universityId).value, universityId, userId)
         == CheckAffiliation(s, universityId, userId)
  {
    if AffiliationKey(universityId, userId).Ok?
       && AffiliationKey(universityId, userId).value == AffiliationKey(userId, universityId).value {
      CompositeKey.Injective(AffiliationIndex, [universityId, userId], AffiliationIndex, [userId, universityId]);
    }
  }

  /** After issuance, VerifyHash compares exactly against the issued hash; after
      an issuance whose GPA Marshal refused, the document is not found. */
  lemma VerifyAfterIssue(s: State, rq: DegreeRequest, issuedAt: string, hashToCheck: string)
    requires IssueStep(s, rq, issuedAt).Ok?
    ensures VerifyHash(IssueStep(s, rq, issuedAt).value, rq.docId, hashToCheck)
         == if Finite(rq.gpa) then Ok(hashToCheck == rq.docHash) else Err(NotFound(rq.docId))
  {
    IssueWrites(s, rq, issuedAt);
  }

  // ---------------------------------------------------------------------------
  // Listings

  /** The records of one university, in order. */
  function OfUniversity(records: seq<DegreeRecord>, universityId: string): (r: seq<DegreeRecord>)
    ensures |r| <= |records|
    ensures forall x :: x in r <==> x in records && x.universityId == universityId
  {
    if records == [] then []
    else
      var init := OfUniversity(records[..|records| - 1], universityId);
      var last := records[|records| - 1];
      assert records == records[..|records| - 1] + [last];
      if last.universityId == universityId then init + [last] else init
  }

  /** GetAllRecords fails exactly when some scanned value does not decode, and
      otherwise lists every value's record, position by position. */
  lemma {:induction false} AllRecordsExact(entries: seq<KV>)
    ensures AllRecords(entries).Err? <==> exists i :: 0 <= i < |entries| && DecodeDegree(entries[i].value).Err?
    ensures AllRecords(entries).Ok? ==>
      && |AllRecords(entries).value| == |entries|
      && forall i :: 0 <= i < |entries| ==> DecodeDegree(entries[i].value) == Ok(AllRecords(entries).value[i])
  {
    if entries != [] {
      var n := |entries|;
      var init := entries[..n - 1];
      AllRecordsExact(init);
      assert forall i :: 0 <= i < n - 1 ==> init[i] == entries[i];
      if AllRecords(init).Err? {
        var i :| 0 <= i < |init| && DecodeDegree(init[i].value).Err?;
        assert DecodeDegree(entries[i].value).Err?;
      }
    }
  }

  /** GetUniversityRecords is GetAllRecords followed by the university filter:
      the same failures, and on success the matching records in scan order. */
  lemma {:induction false} UniversityIsFilter(entries: seq<KV>, universityId: string)
    ensures UniversityRecords(entries, universityId)
         == (match AllRecords(entries)
             case Ok(records) => Ok(OfUniversity(records, universityId))
             case Err(e) => Err(e))
  {
    if entries != [] {
      var n := |entries|;
      var init := entries[..n - 1];
      UniversityIsFilter(init, universityId);
      var last := DecodeDegree(entries[n - 1].value);
      if AllRecords(init).Ok? && last.Ok? {
        var records := AllRecords(init).value + [last.value];
        assert AllRecords(entries) == Ok(records);
        assert records[..|records| - 1] == AllRecords(init).value;
        assert OfUniversity(records, universityId)
            == if last.value.universityId == universityId
               then OfUniversity(AllRecords(init).value, universityId) + [last.value]
               else OfUniversity(AllRecords(init).value, universityId);
      }
    }
  }

  // ---------------------------------------------------------------------------
  // The invariant that keeps the listings working

  /** Every value under a simple key is a degree record naming that key. */
  predicate Consistent(s: State) {
    forall d :: d in s && !CompositeKey.IsComposite(d) ==>
      DecodeDegree(s[d]).Ok? && DecodeDegree(s[d]).value.docId == d
  }

  lemma EmptyConsistent()
    ensures Consistent(map[])
  {
  }

  lemma IssuePreserves(s: State, rq: DegreeRequest, issuedAt: string)
    requires Consistent(s) && IssueStep(s, rq, issuedAt).Ok?
    ensures Consistent(IssueStep(s, rq, issuedAt).value)
  {
    IssueWrites(s, rq, issuedAt);
  }

  lemma DecidePreserves(s: State, docId: string, accept: bool)
    requires Consistent(s) && DecideStep(s, docId, accept).Ok?
    ensures Consistent(DecideStep(s, docId, accept).value)
  {
    DecideWrites(s, docId, accept);
    var s' := DecideStep(s, docId, accept).value;
    forall d | d in s' && !CompositeKey.IsComposite(d)
      ensures DecodeDegree(s'[d]).Ok? && DecodeDegree(s'[d]).value.docId == d
    {
      assert d in s;
      if d == docId {
        assert ReadDegree(s', d) == DecodeDegree(s'[d]);
      } else {
        assert Get(s', d) == Get(s, d);
      }
    }
  }

  lemma AffiliatePreserves(s: State, userId: string, universityId: string)
    requires Consistent(s) && AffiliateStep(s, userId, universityId).Ok?
    ensures Consistent(AffiliateStep(s, userId, universityId).value)
  {
  }

  /** On a consistent ledger GetAllRecords succeeds with a record for every
      non-empty simple key. */
  lemma AllRecordsSucceed(s: State)
    requires Consistent(s)
    ensures AllRecords(Scan(s, EmptyKeySubstitute, "")).Ok?
    ensures forall r :: r in AllRecords(Scan(s, EmptyKeySubstitute, "")).value <==>
      exists d :: d in s && d != [] && !CompositeKey.IsComposite(d) && DecodeDegree(s[d]) == Ok(r)
  {
    FullScanIsSimpleKeys(s);
    var keys := ScanKeys(s, EmptyKeySubstitute, "");
    var entries := Scan(s, EmptyKeySubstitute, "");
    forall i | 0 <= i < |entries| ensures DecodeDegree(entries[i].value).Ok? {
      assert keys[i] in keys;
    }
    AllRecordsExact(entries);
    var records := AllRecords(entries).value;
    forall i | 0 <= i < |keys| ensures DecodeDegree(s[keys[i]]) == Ok(records[i]) {
      assert entries[i].value == s[keys[i]];
    }
    forall r ensures r in records <==>
      exists d :: d in s && d != [] && !CompositeKey.IsComposite(d) && DecodeDegree(s[d]) == Ok(r)
    {
      if r in records {
        ListedIsStored(s, keys, records, r);
      }
      if exists d :: d in s && d != [] && !CompositeKey.IsComposite(d) && DecodeDegree(s[d]) == Ok(r) {
        StoredIsListed(s, keys, records, r);
      }
    }
  }

  /** A record decoded from one of the scanned keys is a stored record under a
      non-empty simple key. */
  lemma ListedIsStored(s: State, keys: seq<string>, records: seq<DegreeRecord>, r: DegreeRecord)
    requires forall k :: k in keys <==> k in s && k != [] && !CompositeKey.IsComposite(k)
    requires |records| == |keys|
    requires forall i :: 0 <= i < |keys| ==> DecodeDegree(s[keys[i]]) == Ok(records[i])
    requires r in records
    ensures exists d :: d in s && d != [] && !CompositeKey.IsComposite(d) && DecodeDegree(s[d]) == Ok(r)
  {
    var i :| 0 <= i < |records| && records[i] == r;
    assert keys[i] in keys;
  }

  /** A record stored under a non-empty simple key is among those decoded from
      the scanned keys. */
  lemma StoredIsListed(s: State, keys: seq<string>, records: seq<DegreeRecord>, r: DegreeRecord)
    requires forall k :: k in keys <==> k in s && k != [] && !CompositeKey.IsComposite(k)
    requires |records| == |keys|
    requires forall i :: 0 <= i < |keys| ==> DecodeDegree(s[keys[i]]) == Ok(records[i])
    requires exists d :: d in s && d != [] && !CompositeKey.IsComposite(d) && DecodeDegree(s[d]) == Ok(r)
    ensures r in records
  {
    var d :| d in s && d != [] && !CompositeKey.IsComposite(d) && DecodeDegree(s[d]) == Ok(r);
    assert d in keys;
    var i :| 0 <= i < |keys| && keys[i] == d;
    assert records[i] == r;
  }

  /** On a consistent ledger GetUniversityRecords succeeds with exactly the
      records of the requested university. */
  lemma UniversityRecordsSucceed(s: State, universityId: string)
    requires Consistent(s)
    ensures UniversityRecords(Scan(s, EmptyKeySubstitute, ""), universityId).Ok?
    ensures forall r :: r in UniversityRecords(Scan(s, EmptyKeySubstitute, ""), universityId).value <==>
      r.universityId == universityId &&
      exists d :: d in s && d != [] && !CompositeKey.IsComposite(d) && DecodeDegree(s[d]) == Ok(r)
  {
    AllRecordsSucceed(s);
    UniversityIsFilter(Scan(s, EmptyKeySubstitute, ""), universityId);
  }
}
