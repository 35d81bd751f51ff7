# Legitify chaincode in Dafny

This is a model of the Hyperledger Fabric chaincode behind Legitify, a system for issuing and verifying academic credentials and degrees. It covers four contracts:

- **Credential chaincode** (Go). Issues credentials together with three composite-key indexes. Keeps an issuer–holder relationship registry. Lets the holder accept or deny a credential. Verifies document hashes. Lists all credentials, or the credentials of one holder or one issuing organisation. Records access grants.
- **Degree chaincode** (Go). Issues degree records. Keeps a university-affiliation registry. Supports accept and deny, hash verification, and listing all records or one university's records.
- **Credential contract** (TypeScript). Issues a credential as a JSON object, verifies it by hash and validity, and lets its issuer revoke it.
- **Sample degree chaincode** (Go). Issues, reads and validates a five-field degree.

The ledger is a `Shim.WorldState` object. Its `state` field maps keys to stored byte strings (`Json.Blob`). The object offers the shim calls the chaincode uses:

- `GetState` and `PutState`, where putting an empty value deletes the key;
- `GetStateByRange`, an ascending scan in code-point order, where an empty start key means U+0001;
- `GetStateByPartialCompositeKey`.

Composite keys are built concretely (`CompositeKey`), as U+0000, the object type and each attribute, each followed by U+0000. An attribute that contains U+0000 or U+10FFFF is refused. Stored values are represented by their JSON parse tree. Any other bytes are kept as raw octets, such as the one-byte `[0]` payload stored under index keys. Go's `encoding/json` decoding rules are modelled member by member:

- a missing member or `null` gives the zero value;
- a member of the wrong type is an error;
- top-level `null` gives the zero struct.

Every transaction that writes has two parts. One is a pure step function, `…Step(state, inputs) : Result<State, Error>`. The other is a method on the `WorldState` that reports Go's `error`, or the thrown TypeScript error, as `Option<Error>`. The method's postcondition ties the new state to the step function. On an error, the state is unchanged. The source writes nothing before its last modelled check, so this holds without any rollback. The one check that comes later is the shim refusing an empty key, which is not modelled (see "## Left out"). Lemmas about the step functions state what each transaction promises.

Invariants:

- `CredentialIndex.Consistent` says that every record is indexed and every index entry points at a record that carries the indexed value. Every credential transaction preserves it. Under it, the holder and issuer-organisation lookups return exactly the matching records.
- `DegreeProperties.Consistent` says that every simple key holds a degree record naming that key. The degree transactions preserve it. Under it, the listings never fail.

## Model

| member | source | states |
|---|---|---|
| CompositeKey.CreateCompositeKey | src/ledger/chaincode/credentialChaincode/credentialChaincode.go:102-116 | a composite key is built exactly when the object type and every attribute are acceptable; it lies in the composite namespace; otherwise the error is an invalid key |
| CompositeKey.SplitRoundTrip | src/ledger/chaincode/credentialChaincode/credentialChaincode.go:287-296 | splitting a created composite key gives back its object type and attributes |
| CompositeKey.Injective | src/ledger/chaincode/credentialChaincode/credentialChaincode.go:138-143 | two composite keys are equal only when type and attributes are equal, so distinct (holder, issuer) pairs get distinct registry keys |
| CompositeKey.ExtensionInPartialRange | src/ledger/chaincode/credentialChaincode/credentialChaincode.go:273 | every key built from a longer attribute list lies in the partial-key scan range of its prefix |
| CompositeKey.PartialRangeComponents | src/ledger/chaincode/credentialChaincode/credentialChaincode.go:273-296 | every key in a partial-key scan range starts with the prefix's type and attributes |
| CompositeKey.KeyLongerThanAttribute | src/ledger/chaincode/credentialChaincode/credentialChaincode.go:102-116 | a composite key is longer than any of its attributes, so it never equals a document id |
| Json.StringMapRoundTrip | src/ledger/chaincode/credentialChaincode/credentialChaincode.go:36 | decoding an encoded `map[string]string` gives back the map |
| Shim.WorldState.PutState | src/ledger/chaincode/credentialChaincode/credentialChaincode.go:131 | the value replaces whatever was stored under the key, and an empty value deletes the key; nothing else changes |
| Shim.WorldState.RangeQuery | src/ledger/chaincode/credentialChaincode/credentialChaincode.go:248-266 | the iterator yields every stored pair in the range, in ascending key order |
| Shim.WorldState.GetStateByRange | src/ledger/chaincode/degreeChaincode/degreeChaincode.go:204 | range scan; an empty start key becomes U+0001; a bound in the composite namespace is refused |
| Shim.WorldState.GetStateByPartialCompositeKey | src/ledger/chaincode/credentialChaincode/credentialChaincode.go:273 | scans exactly the keys that extend the partial composite key; an unacceptable attribute is an error |
| Shim.FullScanIsSimpleKeys | src/ledger/chaincode/credentialChaincode/credentialChaincode.go:248 | a scan from "" to "" visits exactly the non-empty keys outside the composite namespace, so index, registry and grant entries are never listed |
| CredentialChaincode.CredentialRoundTrip | src/ledger/chaincode/credentialChaincode/credentialChaincode.go:17-37 | decoding the JSON of a credential gives back the same credential, all 16 fields |
| CredentialChaincode.SentinelIsNotCredential | src/ledger/chaincode/credentialChaincode/credentialChaincode.go:119-127 | the one-byte index payload does not decode as a credential |
| CredentialChaincode.PairKeyValid | src/ledger/chaincode/credentialChaincode/credentialChaincode.go:102-116 | a two-attribute key in any of the chaincode's namespaces is built exactly when both ids are acceptable |
| CredentialChaincode.ReadCredential | src/ledger/chaincode/credentialChaincode/credentialChaincode.go:221-235 | not-found exactly when nothing (or an empty value) is stored; a stored credential is returned as it was encoded; any other failure is undecodable |
| CredentialChaincode.CheckIssuerHolderRelationship | src/ledger/chaincode/credentialChaincode/credentialChaincode.go:161-177 | succeeds exactly when both ids are acceptable in a key; true exactly when AddIssuerHolderRelationship would refuse the ordered pair as already existing, false exactly when it would record it |
| CredentialChaincode.VerifyHash | src/ledger/chaincode/credentialChaincode/credentialChaincode.go:238-244 | a missing or empty document is not-found; for a stored credential the answer is exactly whether its hash equals the given one; a value that is not a credential is undecodable |
| CredentialChaincode.IssueCredential | src/ledger/chaincode/credentialChaincode/credentialChaincode.go:51-132 | on success the state becomes the issue step's state; on error, the error is returned and the state is unchanged |
| CredentialChaincode.AddIssuerHolderRelationship | src/ledger/chaincode/credentialChaincode/credentialChaincode.go:134-159 | the state follows the relate step; on error nothing is written |
| CredentialChaincode.AcceptCredential | src/ledger/chaincode/credentialChaincode/credentialChaincode.go:179-198 | the state follows the decision step with accept; on error nothing is written |
| CredentialChaincode.DenyCredential | src/ledger/chaincode/credentialChaincode/credentialChaincode.go:200-219 | the state follows the decision step with deny; on error nothing is written |
| CredentialChaincode.GrantAccess | src/ledger/chaincode/credentialChaincode/credentialChaincode.go:367-402 | the state follows the grant step; on error nothing is written |
| CredentialChaincode.GetAllCredentials | src/ledger/chaincode/credentialChaincode/credentialChaincode.go:247-270 | the loop yields the scanned values that decode, in scan order, skipping the rest |
| CredentialChaincode.DecodedCredentialsStep | src/ledger/chaincode/credentialChaincode/credentialChaincode.go:254-266 | one loop iteration appends the value's credential when it decodes and skips the value otherwise |
| CredentialChaincode.ResolveOne | src/ledger/chaincode/credentialChaincode/credentialChaincode.go:286-312 | one index entry is skipped (fewer than two key parts, or an empty document), yields its decoded document, or fails the whole lookup |
| CredentialChaincode.PartialScanSplittable | src/ledger/chaincode/credentialChaincode/credentialChaincode.go:273-290 | every key a partial-key scan yields can be split, so the split is never reached with an unsplittable key |
| CredentialChaincode.LookupIndex | src/ledger/chaincode/credentialChaincode/credentialChaincode.go:272-318 | the loop over index entries computes the index lookup of the namespace and id |
| CredentialChaincode.ResolveEntries | src/ledger/chaincode/credentialChaincode/credentialChaincode.go:279-315 | resolving a sequence of index entries one at a time gives the recursive resolution |
| CredentialChaincode.GetIssuerCredentials | src/ledger/chaincode/credentialChaincode/credentialChaincode.go:272-318 | the lookup scans the issuerOrg~doc index, never issuer~doc |
| CredentialChaincode.GetHolderCredentials | src/ledger/chaincode/credentialChaincode/credentialChaincode.go:320-365 | the lookup scans the holder~doc index |
| CredentialProperties.IssueOutcome | src/ledger/chaincode/credentialChaincode/credentialChaincode.go:56-116 | errors are checked in order: an occupied id gives already-exists, then unparsable attributes, then an unacceptable id in a key; issuance succeeds exactly when none applies |
| CredentialProperties.IssueIgnoresRegistry | src/ledger/chaincode/credentialChaincode/credentialChaincode.go:51-132 | the outcome of issuance depends only on what is stored at the document id; the relationship registry is never consulted |
| CredentialProperties.IssueShape | src/ledger/chaincode/credentialChaincode/credentialChaincode.go:102-131 | a successful issuance writes the payload `[0]` under the three index keys and then the record under the document id |
| CredentialProperties.IssueKeysDistinct | src/ledger/chaincode/credentialChaincode/credentialChaincode.go:102-116 | the document id and the three index keys are four different keys |
| CredentialProperties.FourWrites | src/ledger/chaincode/credentialChaincode/credentialChaincode.go:119-131 | four writes under distinct keys add exactly those keys and change nothing else |
| CredentialProperties.IssueStoresRecord | src/ledger/chaincode/credentialChaincode/credentialChaincode.go:80-99 | reading back the issued document gives a record holding exactly the inputs, the parsed attributes and the ledger timestamp, with neither flag set |
| CredentialProperties.IssueFootprint | src/ledger/chaincode/credentialChaincode/credentialChaincode.go:119-131 | issuance adds exactly the document id and the three index keys, each index key holding `[0]`; every other key is untouched |
| CredentialProperties.DistinctNamespaces | src/ledger/chaincode/credentialChaincode/credentialChaincode.go:102-116 | keys in different namespaces never collide |
| CredentialProperties.DecideOutcome | src/ledger/chaincode/credentialChaincode/credentialChaincode.go:179-219 | an empty or missing document gives not-found; a decision succeeds exactly when the credential can be read, and fails with its read error |
| CredentialProperties.DecideWrites | src/ledger/chaincode/credentialChaincode/credentialChaincode.go:188-197 | a decision sets (accepted, denied) to (accept, not accept), keeps every other field, and touches no other key |
| CredentialProperties.LastDecisionWins | src/ledger/chaincode/credentialChaincode/credentialChaincode.go:179-219 | of two decisions the later determines the state; repeating a decision changes nothing |
| CredentialProperties.RelateWrites | src/ledger/chaincode/credentialChaincode/credentialChaincode.go:134-177 | after relating, the check is true and a second relate is refused as already existing; the one write is the active relationship record for (holder, issuer) under the pair's key, and every other key is unchanged |
| CredentialProperties.RelationshipIsOrdered | src/ledger/chaincode/credentialChaincode/credentialChaincode.go:138-171 | relating (holder, issuer) does not change the check for (issuer, holder) |
| CredentialProperties.VerifyAfterIssue | src/ledger/chaincode/credentialChaincode/credentialChaincode.go:238-244 | after issuance, VerifyHash answers exactly whether the given hash is the issued one |
| CredentialProperties.VerifyAfterDecide | src/ledger/chaincode/credentialChaincode/credentialChaincode.go:179-244 | accepting or denying never changes a hash verification |
| CredentialProperties.GrantWrites | src/ledger/chaincode/credentialChaincode/credentialChaincode.go:367-402 | a grant needs a stored document; it writes the grant under access/[document, verifier] and leaves every other key, the document included, unchanged |
| CredentialProperties.GrantUpserts | src/ledger/chaincode/credentialChaincode/credentialChaincode.go:378-397 | granting again to the same verifier replaces the earlier grant |
| CredentialProperties.DecodedCredentialsMembers | src/ledger/chaincode/credentialChaincode/credentialChaincode.go:254-266 | the listing holds exactly the records of the scanned values that decode |
| CredentialIndex.EmptyConsistent | src/ledger/chaincode/credentialChaincode/credentialChaincode.go:102-131 | the empty ledger satisfies the record–index agreement |
| CredentialIndex.ForeignWritePreserves | src/ledger/chaincode/credentialChaincode/credentialChaincode.go:134-159 | writing under a composite key outside the document indexes keeps the agreement |
| CredentialIndex.RelatePreserves | src/ledger/chaincode/credentialChaincode/credentialChaincode.go:134-159 | relating keeps the agreement |
| CredentialIndex.GrantPreserves | src/ledger/chaincode/credentialChaincode/credentialChaincode.go:367-402 | granting keeps the agreement |
| CredentialIndex.DecidePreserves | src/ledger/chaincode/credentialChaincode/credentialChaincode.go:179-219 | accepting or denying keeps the agreement, and a record is never both accepted and denied |
| CredentialIndex.IssuePreserves | src/ledger/chaincode/credentialChaincode/credentialChaincode.go:51-132 | every successful issuance keeps the agreement |
| CredentialIndex.IssuedIdIsSimple | src/ledger/chaincode/credentialChaincode/credentialChaincode.go:102-116 | a document id that issuance accepts is an attribute of three composite keys, so it never lies in the composite-key namespace |
| CredentialIndex.IssueRecordSound | src/ledger/chaincode/credentialChaincode/credentialChaincode.go:80-131 | the issued record names its key, is undecided and has its three index entries |
| CredentialIndex.IssueKeepsRecords | src/ledger/chaincode/credentialChaincode/credentialChaincode.go:119-131 | issuance keeps every other record sound |
| CredentialIndex.IssueKeepsEntries | src/ledger/chaincode/credentialChaincode/credentialChaincode.go:119-131 | issuance keeps every index entry sound |
| CredentialIndex.ResolveAllFound | src/ledger/chaincode/credentialChaincode/credentialChaincode.go:286-312 | index entries that all resolve make the lookup succeed with exactly their documents |
| CredentialIndex.ScannedEntryResolves | src/ledger/chaincode/credentialChaincode/credentialChaincode.go:287-310 | on a consistent ledger, every scanned index entry names a stored record carrying the id |
| CredentialIndex.RecordIsScanned | src/ledger/chaincode/credentialChaincode/credentialChaincode.go:273 | on a consistent ledger, every record carrying the id has its index entry in the scan |
| CredentialIndex.LookupResolves | src/ledger/chaincode/credentialChaincode/credentialChaincode.go:272-318 | on a consistent ledger, the lookup never fails on a valid id and returns the resolved documents |
| CredentialIndex.FoundIsRecord | src/ledger/chaincode/credentialChaincode/credentialChaincode.go:299-312 | every credential the lookup returns is a stored record whose indexed field is the id |
| CredentialIndex.RecordIsFound | src/ledger/chaincode/credentialChaincode/credentialChaincode.go:273-312 | every stored record whose indexed field is the id is returned |
| CredentialIndex.LookupExact | src/ledger/chaincode/credentialChaincode/credentialChaincode.go:272-365 | on a consistent ledger, the holder and issuer-organisation lookups succeed exactly for acceptable ids and return exactly the stored records with that holder or organisation |
| CredentialIndex.ListedIsStored | src/ledger/chaincode/credentialChaincode/credentialChaincode.go:254-266 | every credential GetAllCredentials lists is stored under a non-empty simple key |
| CredentialIndex.StoredIsListed | src/ledger/chaincode/credentialChaincode/credentialChaincode.go:247-266 | every credential stored under a non-empty simple key is listed |
| CredentialIndex.AllCredentialsExact | src/ledger/chaincode/credentialChaincode/credentialChaincode.go:247-270 | GetAllCredentials returns exactly the decodable records under the non-empty simple keys |
| DegreeChaincode.DegreeRoundTrip | src/ledger/chaincode/degreeChaincode/degreeChaincode.go:17-34 | decoding the JSON of a degree record gives back the same record, all 16 fields, unless the GPA is NaN or infinite, which decoding refuses |
| DegreeChaincode.MarshalDegree | src/ledger/chaincode/degreeChaincode/degreeChaincode.go:80 | a record with a finite GPA marshals to text that decodes back to it; a NaN or infinite GPA makes Marshal fail, and the discarded error leaves the empty value |
| DegreeChaincode.DecodeFailsAsUndecodable | src/ledger/chaincode/degreeChaincode/degreeChaincode.go:186-189 | decoding fails only as undecodable, and a decoded GPA is always finite |
| DegreeChaincode.AffiliationKeyValid | src/ledger/chaincode/degreeChaincode/degreeChaincode.go:89-118 | an affiliation key is built exactly when both ids are acceptable |
| DegreeChaincode.ReadDegree | src/ledger/chaincode/degreeChaincode/degreeChaincode.go:177-191 | not-found exactly when nothing (or an empty value) is stored; a stored record is returned as it was encoded; any other failure is undecodable |
| DegreeChaincode.CheckAffiliation | src/ledger/chaincode/degreeChaincode/degreeChaincode.go:114-130 | succeeds exactly when both ids are acceptable in a key; true exactly when AddUniversityAffiliation would refuse the ordered pair as already existing, false exactly when it would record it |
| DegreeChaincode.VerifyHash | src/ledger/chaincode/degreeChaincode/degreeChaincode.go:194-200 | a missing or empty document is not-found; for a stored record the answer is exactly whether its hash equals the given one; a value that is not a degree record is undecodable |
| DegreeChaincode.IssueDegree | src/ledger/chaincode/degreeChaincode/degreeChaincode.go:44-82 | the state follows the issue step, which writes the marshalled record and so deletes the id when Marshal refuses the GPA; on error nothing is written |
| DegreeChaincode.AddUniversityAffiliation | src/ledger/chaincode/degreeChaincode/degreeChaincode.go:85-111 | the state follows the affiliate step; on error nothing is written |
| DegreeChaincode.AcceptDegree | src/ledger/chaincode/degreeChaincode/degreeChaincode.go:133-152 | the state follows the decision step with accept; on error nothing is written |
| DegreeChaincode.DenyDegree | src/ledger/chaincode/degreeChaincode/degreeChaincode.go:155-174 | the state follows the decision step with deny; on error nothing is written |
| DegreeChaincode.GetAllRecords | src/ledger/chaincode/degreeChaincode/degreeChaincode.go:203-225 | the loop decodes every scanned value in order and fails as a whole on the first that does not decode |
| DegreeChaincode.GetUniversityRecords | src/ledger/chaincode/degreeChaincode/degreeChaincode.go:228-254 | the loop keeps the decoded records of the university and fails as a whole on the first undecodable value |
| DegreeChaincode.AllRecordsStep | src/ledger/chaincode/degreeChaincode/degreeChaincode.go:211-222 | one loop iteration extends the listing by the decoded record, or fails the listing |
| DegreeChaincode.UniversityRecordsStep | src/ledger/chaincode/degreeChaincode/degreeChaincode.go:236-250 | one loop iteration extends the listing by a matching record, skips another, or fails the listing |
| DegreeChaincode.AllRecordsFailure | src/ledger/chaincode/degreeChaincode/degreeChaincode.go:218-219 | once a prefix fails, the whole listing fails with the same error |
| DegreeChaincode.UniversityRecordsFailure | src/ledger/chaincode/degreeChaincode/degreeChaincode.go:243-244 | once a prefix fails, the whole university listing fails with the same error |
| DegreeProperties.IssueWrites | src/ledger/chaincode/degreeChaincode/degreeChaincode.go:44-82 | issuance fails with already-exists exactly when the id holds a value; otherwise, for a finite GPA, it stores a record of exactly the inputs, with neither flag set, and changes nothing else; for a NaN or infinite GPA it reports success but the id is left with nothing stored |
| DegreeProperties.IssueIgnoresAffiliations | src/ledger/chaincode/degreeChaincode/degreeChaincode.go:44-82 | the outcome of issuance depends only on what is stored at the document id; affiliations are never consulted |
| DegreeProperties.DecideWrites | src/ledger/chaincode/degreeChaincode/degreeChaincode.go:133-174 | a missing document gives not-found; a decision succeeds exactly when the record can be read, sets the flag pair, and touches nothing else |
| DegreeProperties.LastDecisionWins | src/ledger/chaincode/degreeChaincode/degreeChaincode.go:133-174 | of two decisions the later determines the state; repeating a decision changes nothing |
| DegreeProperties.AffiliateWrites | src/ledger/chaincode/degreeChaincode/degreeChaincode.go:85-130 | after affiliating, the check is true and a second affiliation is refused as already existing; the one write is the active affiliation record for (user, university) under the pair's key, and every other key is unchanged |
| DegreeProperties.AffiliationIsOrdered | src/ledger/chaincode/degreeChaincode/degreeChaincode.go:89-124 | affiliating (user, university) does not change the check for (university, user) |
| DegreeProperties.VerifyAfterIssue | src/ledger/chaincode/degreeChaincode/degreeChaincode.go:194-200 | after issuance with a finite GPA, VerifyHash answers exactly whether the given hash is the issued one; after one with a NaN or infinite GPA, the document is not found |
| DegreeProperties.OfUniversity | src/ledger/chaincode/degreeChaincode/degreeChaincode.go:248-249 | the filter keeps exactly the records of the university and never lengthens the list |
| DegreeProperties.AllRecordsExact | src/ledger/chaincode/degreeChaincode/degreeChaincode.go:203-225 | the listing fails exactly when some scanned value does not decode; otherwise it holds each value's record, position by position |
| DegreeProperties.UniversityIsFilter | src/ledger/chaincode/degreeChaincode/degreeChaincode.go:228-254 | the university listing is the full listing filtered by university, with the same failures |
| DegreeProperties.EmptyConsistent | src/ledger/chaincode/degreeChaincode/degreeChaincode.go:44-82 | the empty ledger holds only degree records under simple keys |
| DegreeProperties.IssuePreserves | src/ledger/chaincode/degreeChaincode/degreeChaincode.go:44-82 | issuance keeps every simple key holding a record that names it |
| DegreeProperties.DecidePreserves | src/ledger/chaincode/degreeChaincode/degreeChaincode.go:133-174 | accepting or denying keeps that invariant |
| DegreeProperties.AffiliatePreserves | src/ledger/chaincode/degreeChaincode/degreeChaincode.go:85-111 | affiliating keeps every simple key holding a record that names it |
| DegreeProperties.AllRecordsSucceed | src/ledger/chaincode/degreeChaincode/degreeChaincode.go:203-225 | on such a ledger, GetAllRecords succeeds with exactly the records under the non-empty simple keys |
| DegreeProperties.ListedIsStored | src/ledger/chaincode/degreeChaincode/degreeChaincode.go:203-225 | every record decoded from the scanned keys is the record stored under some non-empty simple key |
| DegreeProperties.StoredIsListed | src/ledger/chaincode/degreeChaincode/degreeChaincode.go:203-225 | every record stored under a non-empty simple key is among those decoded from the scanned keys |
| DegreeProperties.UniversityRecordsSucceed | src/ledger/chaincode/degreeChaincode/degreeChaincode.go:228-254 | on such a ledger, GetUniversityRecords succeeds with exactly the records of that university |
| CredentialContract.VerifyCredential | src/ledger/fabric-samples/legitify-network/chaincode/src/credentialContract.ts:43-57 | a missing or empty value throws "does not exist"; it throws exactly for that, for text that is not JSON and for `null`, and otherwise returns; the result is true exactly when the stored object's hash equals the given one and its isValid is truthy |
| CredentialContract.IssueCredential | src/ledger/fabric-samples/legitify-network/chaincode/src/credentialContract.ts:19-41 | the state follows the issue step; metadata that is not JSON throws before anything is written |
| CredentialContract.RevokeCredential | src/ledger/fabric-samples/legitify-network/chaincode/src/credentialContract.ts:59-80 | the state follows the revoke step; every throw leaves the state unchanged |
| CredentialContract.IssueOverwrites | src/ledger/fabric-samples/legitify-network/chaincode/src/credentialContract.ts:28-40 | issuance fails only on metadata that is not JSON; otherwise it stores the object with isValid true and the metadata as `JSON.stringify` writes it under the id, whatever was there, and changes no other key |
| CredentialContract.StringifiedObject | src/ledger/fabric-samples/legitify-network/chaincode/src/credentialContract.ts:28-40 | stringifying the credential object rewrites only its metadata |
| CredentialContract.StringifiedIsCanonical | src/ledger/fabric-samples/legitify-network/chaincode/src/credentialContract.ts:37-40 | what `JSON.stringify` writes holds no NaN, no infinity and no -0 |
| CredentialContract.CanonicalIsFixed | src/ledger/fabric-samples/legitify-network/chaincode/src/credentialContract.ts:75-79 | stringifying a value that holds none of those gives it back unchanged |
| CredentialContract.StringifyIdempotent | src/ledger/fabric-samples/legitify-network/chaincode/src/credentialContract.ts:75-79 | writing back what was parsed from a written value changes nothing further |
| CredentialContract.SecondIssueWins | src/ledger/fabric-samples/legitify-network/chaincode/src/credentialContract.ts:37-40 | issuing twice under one id leaves only the second credential |
| CredentialContract.VerifyAfterIssue | src/ledger/fabric-samples/legitify-network/chaincode/src/credentialContract.ts:28-56 | a freshly issued credential verifies exactly for its own hash |
| CredentialContract.RevokeRefuses | src/ledger/fabric-samples/legitify-network/chaincode/src/credentialContract.ts:65-73 | a missing credential throws "does not exist", a caller who is not the recorded issuer is refused, and revocation succeeds exactly when the stored object names the caller as issuer |
| CredentialContract.RevokeWrites | src/ledger/fabric-samples/legitify-network/chaincode/src/credentialContract.ts:75-79 | revocation sets isValid to false, writes every other member back as `JSON.stringify` writes it, and touches no other key |
| CredentialContract.RevokedNeverVerifies | src/ledger/fabric-samples/legitify-network/chaincode/src/credentialContract.ts:56-79 | after revocation no hash verifies |
| CredentialContract.RevokeIdempotent | src/ledger/fabric-samples/legitify-network/chaincode/src/credentialContract.ts:59-80 | revoking again by the same issuer leaves the state as after the first revocation |
| SampleDegreeChaincode.DegreeRoundTrip | src/ledger/fabric-samples/chaincode/degreeChaincode/degreeChaincode.go:11-17 | decoding the JSON of a degree gives back the same degree |
| SampleDegreeChaincode.ReadDegree | src/ledger/fabric-samples/chaincode/degreeChaincode/degreeChaincode.go:43-59 | "degree not found" exactly when nothing (or an empty value) is stored; a stored degree is returned as it was encoded; any other failure is undecodable |
| SampleDegreeChaincode.ValidateDegree | src/ledger/fabric-samples/chaincode/degreeChaincode/degreeChaincode.go:62-68 | true exactly when reading does not report the degree missing, and true for every stored degree |
| SampleDegreeChaincode.IssueDegree | src/ledger/fabric-samples/chaincode/degreeChaincode/degreeChaincode.go:25-40 | the degree's JSON is stored under its id with no existence check, and nothing else changes |
| SampleDegreeChaincode.ReadAfterIssue | src/ledger/fabric-samples/chaincode/degreeChaincode/degreeChaincode.go:25-68 | reading an issued degree gives exactly the issued degree, the id validates, and no other key changes |
| SampleDegreeChaincode.SecondIssueWins | src/ledger/fabric-samples/chaincode/degreeChaincode/degreeChaincode.go:25-40 | issuing twice under one id leaves only the second degree |
| SampleDegreeChaincode.ValidateMatchesRead | src/ledger/fabric-samples/chaincode/degreeChaincode/degreeChaincode.go:43-68 | validation is true exactly when reading does not report "degree not found"; reading is otherwise the decoding of what is stored |
| SampleDegreeChaincode.DecodeNeverMissing | src/ledger/fabric-samples/chaincode/degreeChaincode/degreeChaincode.go:52-56 | decoding can fail only as undecodable, never as not-found |

## Left out

- Store failures are not modelled, since the store is taken to be reliable. These are GetState, PutState and iterator errors. The error branches that only pass such failures on are left out with them.
- CredentialChaincode.IssueStep, DegreeChaincode.IssueStep and SampleDegreeChaincode.IssueStep accept an empty document id, but the shim's PutState refuses an empty key with an error. For the credential chaincode, IssueCredential has by then already put its three index entries (credentialChaincode.go:119-131). Only Fabric discarding the writes of a failed transaction leaves the ledger unchanged.
- Transaction timestamps are parameters: the ledger timestamp, `issuedAt`, `grantedAt` and `new Date().toISOString()`. The clock is not modelled.
- `main`, chaincode start-up and the TypeScript `initLedger` are left out: the last only logs.
- Events, concurrent transactions, endorsement and MVCC conflicts are left out.
- JSON text is represented by its parse tree. So is the output of Go's `json.Marshal` and TypeScript's `JSON.stringify`. The values `JSON.stringify` rewrites are modelled by `CredentialContract.Stringified`: NaN and the infinities become `null`, and -0 becomes `0`. Whitespace, member order, number formatting and escaping are not modelled. Neither are duplicate members, Go's case-insensitive member matching, or invalid UTF-8.
- Go's distinction between a nil and an empty map or slice is not kept. An absent `attributes` map and an empty one are the same value here. A listing with no results is the empty sequence, where Go returns a nil slice that is sent as `null`.
- The GPA is a float64 kept as its bit pattern. It is stored and returned, never computed with. `Json.Finite` separates NaN and the infinities, which `json.Marshal` refuses. A JSON number beyond float64's range is held as an infinity, which `json.Unmarshal` refuses.
- Json.Blob stands for a byte string by its JSON parse tree when it is JSON text, and by its octets (`Raw`) otherwise. Nothing in the types stops a `Raw` value from holding octets that are JSON text. The lemmas hold for such values too, but there they describe the convention, not the source: for example, raw octets spelling `{}` are refused as metadata by CredentialContract.IssueStep, while `JSON.parse` would accept them.
- `CompositeKey.SplitCompositeKey` requires the key to have a first component. The shim indexes that component unchecked, and it would panic otherwise. `CredentialChaincode.PartialScanSplittable` shows that every key the chaincode splits satisfies this.
- CredentialContract.VerifyCredential returns the truthiness of `isValid` as a boolean. JavaScript's `&&` returns the `isValid` value itself, which is not a boolean when the stored member is something else. Text that is not JSON and a stored `null` both throw in JavaScript: a SyntaxError for the first, a TypeError for the second. Both are modelled as the error Undecodable.
- SampleDegreeChaincode.ValidateDegree and SampleDegreeChaincode.ReadDegree treat an empty stored value like an absent one. Fabric returns nil for both, and the Go code tests for nil.
- The `issuer~doc` index is written at issuance but never read. GetIssuerCredentials scans `issuerOrg~doc`. The model keeps this as the source has it.
- The server and client that call these contracts are not part of this model.
