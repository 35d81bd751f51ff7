/** The sample degree chaincode: a five-field degree stored as JSON under its
    id, with no existence check on issue, a read that reports a missing degree,
    and a validation that only asks whether anything is stored. */
module SampleDegreeChaincode {
  import opened Wrappers
  import opened Errors
  import opened Json
  import opened Shim

  datatype Degree = Degree(id: string, university: string, recipient: string, title: string, issueDate: string)

  /** The JSON object json.Marshal produces for a degree (the struct tags name
      the members). */
  function EncodeDegree(d: Degree): Json {
    JObject(map[
      "ID" := JString(d.id),
      "University" := JString(d.university),
      "Recipient" := JString(d.recipient),
      "Title" := JString(d.title),
      "IssueDate" := JString(d.issueDate)])
  }

  function DecodeDegree(b: Blob): Result<Degree, Error> {
    var f :- StructMembers(b);
    var id :- StringMember(f, "ID");
    var university :- StringMember(f, "University");
    var recipient :- StringMember(f, "Recipient");
    var title :- StringMember(f, "Title");
    var issueDate :- StringMember(f, "IssueDate");
    Ok(Degree(id, university, recipient, title, issueDate))
  }

  /** Decoding what was encoded gives back the same degree. */
  lemma DegreeRoundTrip(d: Degree)
    ensures DecodeDegree(Text(EncodeDegree(d))) == Ok(d)
  {
    var f := EncodeDegree(d).fields;
    assert StringMember(f, "ID") == Ok(d.id);
    assert StringMember(f, "University") == Ok(d.university);
    assert StringMember(f, "Recipient") == Ok(d.recipient);
    assert StringMember(f, "Title") == Ok(d.title);
    assert StringMember(f, "IssueDate") == Ok(d.issueDate);
  }

  /** IssueDegree: marshal the degree and store it under its id, whatever the
      id held before. */
  function IssueStep(s: State, d: Degree): State {
    s[d.id := Text(EncodeDegree(d))]
  }

  /** Every encoded degree decodes back to itself. */
  lemma EncodedDegreesDecode()
    ensures forall d :: DecodeDegree(Text(EncodeDegree(d))) == Ok(d)
  {
    forall d: Degree ensures DecodeDegree(Text(EncodeDegree(d))) == Ok(d) {
      DegreeRoundTrip(d);
    }
  }

  /** ReadDegree: nothing stored is "degree not found"; a stored degree is
      returned; a stored value that does not decode is Undecodable. */
  function ReadDegree(s: State, id: string): (r: Result<Degree, Error>)
    ensures r == Err(NotFound(id)) <==> IsEmpty(Get(s, id))
    ensures forall d :: Get(s, id) == Some(Text(EncodeDegree(d))) ==> r == Ok(d)
    ensures r.Err? && !IsEmpty(Get(s, id)) ==> r.error == Undecodable
  {
    EncodedDegreesDecode();
    var bytes := Get(s, id);
    if IsEmpty(bytes) then Err(NotFound(id))
    else
      DecodeNeverMissing(bytes.value, id);
      DecodeDegree(bytes.value)
  }

  /** ValidateDegree: whether anything is stored under the id; true for every
      stored degree, and exactly when reading does not report it missing. */
  function ValidateDegree(s: State, id: string): (r: bool)
    ensures r <==> ReadDegree(s, id) != Err(NotFound(id))
    ensures forall d :: Get(s, id) == Some(Text(EncodeDegree(d))) ==> r
  {
    !IsEmpty(Get(s, id))
  }

  method IssueDegree(ws: WorldState, id: string, university: string, recipient: string, title: string,
                     issueDate: string)
    modifies ws
    ensures ws.state == IssueStep(old(ws.state), Degree(id, university, recipient, title, issueDate))
  {
    var degree := Degree(id, university, recipient, title, issueDate);
    ws.PutState(id, Text(EncodeDegree(degree)));
  }

  // ---------------------------------------------------------------------------
  // Properties

  /** Reading back an issued degree gives exactly the issued degree, and the
      id then validates; no other key changes. */
  lemma ReadAfterIssue(s: State, d: Degree)
    ensures ReadDegree(IssueStep(s, d), d.id) == Ok(d)
    ensures ValidateDegree(IssueStep(s, d), d.id)
    ensures forall k :: k != d.id ==> Get(IssueStep(s, d), k) == Get(s, k)
  {
    DegreeRoundTrip(d);
  }

  /** Issuing twice under one id keeps only the second degree. */
  lemma SecondIssueWins(s: State, d1: Degree, d2: Degree)
    requires d1.id == d2.id
    ensures IssueStep(IssueStep(s, d1), d2) == IssueStep(s, d2)
    ensures ReadDegree(IssueStep(IssueStep(s, d1), d2), d1.id) == Ok(d2)
  {
    assert IssueStep(IssueStep(s, d1), d2) == IssueStep(s, d2);
    ReadAfterIssue(s, d2);
  }

  /** A degree validates exactly when reading it does not report it missing;
      reading is otherwise the decode of what is stored. */
  lemma ValidateMatchesRead(s: State, id: string)
    ensures ValidateDegree(s, id) <==> ReadDegree(s, id) != Err(NotFound(id))
    ensures !ValidateDegree(s, id) ==> ReadDegree(s, id) == Err(NotFound(id))
    ensures ValidateDegree(s, id) ==> ReadDegree(s, id) == DecodeDegree(s[id])
  {
    if ValidateDegree(s, id) {
      DecodeNeverMissing(s[id], id);
    }
  }

  /** The decoder's only error is Undecodable. */
  lemma DecodeNeverMissing(b: Blob, id: string)
    ensures DecodeDegree(b) != Err(NotFound(id))
    ensures DecodeDegree(b).Err? ==> DecodeDegree(b).error == Undecodable
  {
  }
}
