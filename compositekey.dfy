/** Composite keys as the Fabric chaincode shim builds them: U+0000, the object
    type, then each attribute, every component followed by U+0000. The leading
    U+0000 keeps composite keys apart from the simple keys that ordinary records
    are stored under; attributes may not contain U+0000 or U+10FFFF. */
module CompositeKey {
  import opened Wrappers
  import opened Errors
  import LexOrder

  /** U+0000: opens a composite key and ends each of its components. */
  const Nul: char := '\0'

  predicate ValidAttribute(s: string) {
    forall i :: 0 <= i < |s| ==> s[i] != Nul && s[i] != LexOrder.Top
  }

  predicate AllValid(attrs: seq<string>) {
    forall i :: 0 <= i < |attrs| ==> ValidAttribute(attrs[i])
  }

  /** Every component followed by U+0000. */
  function Join(parts: seq<string>): string {
    if parts == [] then [] else parts[0] + [Nul] + Join(parts[1..])
  }

  /** The shim's CreateCompositeKey: fails when the object type or an attribute
      holds a forbidden character. */
  function CreateCompositeKey(objectType: string, attributes: seq<string>): (r: Result<string, Error>)
    ensures r.Ok? <==> ValidAttribute(objectType) && AllValid(attributes)
    ensures r.Ok? ==> IsComposite(r.value)
    ensures r.Err? ==> r.error == InvalidKey
  {
    if ValidAttribute(objectType) && AllValid(attributes) then
      Ok([Nul] + Join([objectType] + attributes))
    else
      Err(InvalidKey)
  }

  /** A key in the composite-key namespace. */
  predicate IsComposite(key: string) {
    |key| > 0 && key[0] == Nul
  }

  /** The shim's splitting loop: `cur` collects characters until a U+0000 closes
      the component; an unterminated tail is dropped. */
  function Cut(s: string, cur: string): seq<string>
    decreases |s|
  {
    if s == [] then []
    else if s[0] == Nul then [cur] + Cut(s[1..], [])
    else Cut(s[1..], cur + [s[0]])
  }

  /** The components of a key, scanned from its second character on. */
  function Components(key: string): seq<string> {
    if key == [] then [] else Cut(key[1..], [])
  }

  /** The shim's SplitCompositeKey: object type and attributes. The shim indexes
      the first component unchecked, so it is only called on keys that have one. */
  function SplitCompositeKey(key: string): (string, seq<string>)
    requires Components(key) != []
  {
    (Components(key)[0], Components(key)[1..])
  }

  lemma {:induction false} CutComponent(a: string, r: string, cur: string)
    requires Nul !in a
    ensures Cut(a + [Nul] + r, cur) == [cur + a] + Cut(r, [])
    decreases |a|
  {
    if a == [] {
      assert (a + [Nul] + r)[1..] == r;
      assert cur + a == cur;
    } else {
      assert a[0] != Nul;
      assert (a + [Nul] + r)[0] == a[0];
      assert (a + [Nul] + r)[1..] == a[1..] + [Nul] + r;
      assert cur + [a[0]] + a[1..] == cur + a;
      CutComponent(a[1..], r, cur + [a[0]]);
    }
  }

  lemma {:induction false} CutJoin(parts: seq<string>, r: string)
    requires forall i :: 0 <= i < |parts| ==> Nul !in parts[i]
    ensures Cut(Join(parts) + r, []) == parts + Cut(r, [])
  {
    if parts == [] {
      assert Join(parts) + r == r;
    } else {
      assert Join(parts) + r == parts[0] + [Nul] + (Join(parts[1..]) + r);
      CutComponent(parts[0], Join(parts[1..]) + r, []);
      assert [] + parts[0] == parts[0];
      CutJoin(parts[1..], r);
      assert parts == [parts[0]] + parts[1..];
    }
  }

  lemma ValidHasNoNul(s: string)
    requires ValidAttribute(s)
    ensures Nul !in s
  {
  }

  /** Splitting an extension of a composite key recovers the key's own components
      first. */
  lemma ComponentsOfExtension(objectType: string, attributes: seq<string>, rest: string)
    requires CreateCompositeKey(objectType, attributes).Ok?
    ensures Components(CreateCompositeKey(objectType, attributes).value + rest)
         == [objectType] + attributes + Cut(rest, [])
  {
    var parts := [objectType] + attributes;
    forall i | 0 <= i < |parts| ensures Nul !in parts[i] {
      ValidHasNoNul(parts[i]);
    }
    var key := CreateCompositeKey(objectType, attributes).value;
    assert (key + rest)[1..] == Join(parts) + rest;
    CutJoin(parts, rest);
  }

  /** SplitCompositeKey inverts CreateCompositeKey. */
  lemma SplitRoundTrip(objectType: string, attributes: seq<string>)
    requires CreateCompositeKey(objectType, attributes).Ok?
    ensures Components(CreateCompositeKey(objectType, attributes).value) == [objectType] + attributes
    ensures SplitCompositeKey(CreateCompositeKey(objectType, attributes).value) == (objectType, attributes)
  {
    var key := CreateCompositeKey(objectType, attributes).value;
    ComponentsOfExtension(objectType, attributes, []);
    assert key + [] == key;
    assert Components(key) == [objectType] + attributes;
  }

  /** Distinct object types or attribute lists never share a key. */
  lemma Injective(t1: string, a1: seq<string>, t2: string, a2: seq<string>)
    requires CreateCompositeKey(t1, a1).Ok? && CreateCompositeKey(t2, a2).Ok?
    requires CreateCompositeKey(t1, a1).value == CreateCompositeKey(t2, a2).value
    ensures t1 == t2 && a1 == a2
  {
    SplitRoundTrip(t1, a1);
    SplitRoundTrip(t2, a2);
  }

  /** The range the shim scans for a partial composite key `p`: from `p` up to,
      not including, `p` followed by U+10FFFF. */
  predicate InPartialRange(p: string, key: string) {
    LexOrder.LessEq(p, key) && LexOrder.Less(key, p + [LexOrder.Top])
  }

  /** A full key lies in the range of each of its leading partial keys. */
  lemma ExtensionInPartialRange(objectType: string, attributes: seq<string>, more: seq<string>)
    requires CreateCompositeKey(objectType, attributes + more).Ok?
    ensures CreateCompositeKey(objectType, attributes).Ok?
    ensures InPartialRange(CreateCompositeKey(objectType, attributes).value,
                           CreateCompositeKey(objectType, attributes + more).value)
  {
    assert forall i :: 0 <= i < |attributes| ==> attributes[i] == (attributes + more)[i];
    assert forall i :: 0 <= i < |more| ==> more[i] == (attributes + more)[|attributes| + i];
    var p := CreateCompositeKey(objectType, attributes).value;
    var key := CreateCompositeKey(objectType, attributes + more).value;
    JoinAppend([objectType] + attributes, more);
    assert [objectType] + (attributes + more) == ([objectType] + attributes) + more;
    assert key == p + Join(more);
    assert key[..|p|] == p;
    if |key| > |p| {
      assert key[|p|] == Join(more)[0];
      assert more != [];
      if more[0] == [] {
        assert Join(more)[0] == Nul;
      } else {
        assert Join(more)[0] == more[0][0];
        assert ValidAttribute(more[0]);
      }
    }
    LexOrder.BetweenIsExtension(p, key);
  }

  lemma {:induction false} JoinAppend(a: seq<string>, b: seq<string>)
    ensures Join(a + b) == Join(a) + Join(b)
  {
    if a != [] {
      assert (a + b)[1..] == a[1..] + b;
      JoinAppend(a[1..], b);
    } else {
      assert a + b == b;
    }
  }

  /** Every key the scan for a partial composite key returns starts with that
      partial key's components. */
  lemma PartialRangeComponents(objectType: string, attributes: seq<string>, key: string)
    requires CreateCompositeKey(objectType, attributes).Ok?
    requires InPartialRange(CreateCompositeKey(objectType, attributes).value, key)
    ensures |Components(key)| >= 1 + |attributes|
    ensures Components(key)[..1 + |attributes|] == [objectType] + attributes
  {
    var p := CreateCompositeKey(objectType, attributes).value;
    LexOrder.BetweenIsExtension(p, key);
    var rest := key[|p|..];
    assert key == p + rest;
    ComponentsOfExtension(objectType, attributes, rest);
    assert ([objectType] + attributes + Cut(rest, []))[..1 + |attributes|] == [objectType] + attributes;
  }

  lemma {:induction false} JoinLonger(parts: seq<string>, i: nat)
    requires i < |parts|
    ensures |Join(parts)| > |parts[i]|
  {
    if i > 0 {
      JoinLonger(parts[1..], i - 1);
    }
  }

  /** A composite key is longer than each of its attributes, so it never equals
      one of them. */
  lemma KeyLongerThanAttribute(objectType: string, attributes: seq<string>, i: nat)
    requires CreateCompositeKey(objectType, attributes).Ok? && i < |attributes|
    ensures |CreateCompositeKey(objectType, attributes).value| > |attributes[i]|
  {
    JoinLonger([objectType] + attributes, i + 1);
  }
}
