/** The world state as the chaincode shim presents it: single-key reads and
    writes, and range iterators that yield keys in ascending order. Each public
    chaincode operation runs as one transaction against one WorldState. */
module Shim {
  import opened Wrappers
  import opened Errors
  import opened Json
  import LexOrder
  import CompositeKey

  type State = map<string, Blob>

  /** One key/value pair yielded by a range iterator. */
  datatype KV = KV(key: string, value: Blob)

  /** What GetState returns: the stored bytes, or nothing. */
  function Get(s: State, key: string): Option<Blob> {
    if key in s then Some(s[key]) else None
  }

  /** The state after a write: an empty value is recorded as a delete, any
      other value replaces what the key held. */
  function Put(s: State, key: string, value: Blob): State {
    if IsEmpty(Some(value)) then s - {key} else s[key := value]
  }

  /** The pairs for `keys`, in the order given. */
  function Entries(s: State, keys: seq<string>): (r: seq<KV>)
    requires forall k :: k in keys ==> k in s
    ensures |r| == |keys|
    ensures forall i :: 0 <= i < |keys| ==> r[i] == KV(keys[i], s[keys[i]])
  {
    if keys == [] then [] else [KV(keys[0], s[keys[0]])] + Entries(s, keys[1..])
  }

  lemma {:induction false} EntriesSnoc(s: State, keys: seq<string>, k: string)
    requires forall x :: x in keys ==> x in s
    requires k in s
    ensures Entries(s, keys + [k]) == Entries(s, keys) + [KV(k, s[k])]
  {
    if keys != [] {
      assert (keys + [k])[1..] == keys[1..] + [k];
      EntriesSnoc(s, keys[1..], k);
    }
  }

  /** `key` lies in [startKey, endKey); an empty end key leaves the range open. */
  predicate InRange(key: string, startKey: string, endKey: string) {
    LexOrder.LessEq(startKey, key) && (endKey == [] || LexOrder.Less(key, endKey))
  }

  /** Every stored key in [startKey, endKey), ascending. */
  ghost function ScanKeys(s: State, startKey: string, endKey: string): (keys: seq<string>)
    ensures forall k :: k in keys <==> k in s && InRange(k, startKey, endKey)
    ensures LexOrder.Ascending(keys)
  {
    LexOrder.Sorted(set k | k in s && InRange(k, startKey, endKey))
  }

  /** Every stored pair in [startKey, endKey), in ascending key order. */
  ghost function Scan(s: State, startKey: string, endKey: string): seq<KV> {
    Entries(s, ScanKeys(s, startKey, endKey))
  }

  /** The start key GetStateByRange uses in place of an empty one: U+0001, which
      sorts after every composite key's leading U+0000. */
  const EmptyKeySubstitute: string := ['\U{1}']

  /** What GetStateByRange yields: a start or end key in the composite-key
      namespace is refused. */
  ghost function ByRange(s: State, startKey: string, endKey: string): Result<seq<KV>, Error> {
    var start := if startKey == [] then EmptyKeySubstitute else startKey;
    if CompositeKey.IsComposite(start) || CompositeKey.IsComposite(endKey) then Err(InvalidKey)
    else Ok(Scan(s, start, endKey))
  }

  /** What GetStateByPartialCompositeKey yields: the pairs whose keys extend the
      composite key built from the object type and the leading attributes. */
  ghost function ByPartialKey(s: State, objectType: string, attributes: seq<string>): Result<seq<KV>, Error> {
    match CompositeKey.CreateCompositeKey(objectType, attributes)
    case Err(e) => Err(e)
    case Ok(p) => Ok(Scan(s, p, p + [LexOrder.Top]))
  }

  /** A full scan, GetStateByRange("", ""), visits exactly the simple keys:
      the non-empty keys outside the composite-key namespace. */
  lemma FullScanIsSimpleKeys(s: State)
    ensures ByRange(s, "", "") == Ok(Scan(s, EmptyKeySubstitute, ""))
    ensures forall key :: key in ScanKeys(s, EmptyKeySubstitute, "") <==>
              key in s && key != [] && !CompositeKey.IsComposite(key)
  {
    forall key ensures InRange(key, EmptyKeySubstitute, "") <==> key != [] && !CompositeKey.IsComposite(key) {
      AfterSubstitute(key);
    }
  }

  /** The keys at or after U+0001 are the non-empty keys that do not open with
      U+0000. */
  lemma AfterSubstitute(key: string)
    ensures LexOrder.LessEq(EmptyKeySubstitute, key) <==> key != [] && key[0] != CompositeKey.Nul
  {
    if key != [] && key[0] == '\U{1}' && |key| > 1 {
      assert LexOrder.Less(EmptyKeySubstitute[1..], key[1..]);
    }
  }

  class WorldState {
    var state: State

    constructor (initial: State)
      ensures state == initial
    {
      state := initial;
    }

    function GetState(key: string): Option<Blob>
      reads this
    {
      Get(state, key)
    }

    /** Upsert: the new value replaces whatever was stored; an empty value
        deletes the key. */
    method PutState(key: string, value: Blob)
      modifies this
      ensures state == Put(old(state), key, value)
      ensures IsEmpty(Some(value)) ==> key !in state
      ensures !IsEmpty(Some(value)) ==> Get(state, key) == Some(value)
      ensures forall k :: k != key ==> Get(state, k) == Get(old(state), k)
    {
      state := Put(state, key, value);
    }

    /** The iterator behind both range queries: repeatedly takes the least key
        not yet yielded. */
    method RangeQuery(startKey: string, endKey: string) returns (entries: seq<KV>)
      ensures entries == Scan(state, startKey, endKey)
    {
      var remaining := set k | k in state && InRange(k, startKey, endKey);
      ghost var all := remaining;
      ghost var keys: seq<string> := [];
      entries := [];
      while remaining != {}
        invariant forall k :: k in remaining ==> k in state
        invariant keys + LexOrder.Sorted(remaining) == LexOrder.Sorted(all)
        invariant forall x :: x in keys ==> x in state
        invariant entries == Entries(state, keys)
        decreases |remaining|
      {
        LexOrder.LeastExists(remaining);
        var k :| LexOrder.IsLeast(k, remaining);
        LexOrder.SortedStep(keys, remaining, k, all);
        EntriesSnoc(state, keys, k);
        entries := entries + [KV(k, state[k])];
        keys := keys + [k];
        remaining := remaining - {k};
      }
      assert keys == LexOrder.Sorted(all);
    }

    method GetStateByRange(startKey: string, endKey: string) returns (r: Result<seq<KV>, Error>)
      ensures r == ByRange(state, startKey, endKey)
    {
      var start := if startKey == [] then EmptyKeySubstitute else startKey;
      if CompositeKey.IsComposite(start) || CompositeKey.IsComposite(endKey) {
        return Err(InvalidKey);
      }
      var entries := RangeQuery(start, endKey);
      return Ok(entries);
    }

    method GetStateByPartialCompositeKey(objectType: string, attributes: seq<string>)
      returns (r: Result<seq<KV>, Error>)
      ensures r == ByPartialKey(state, objectType, attributes)
    {
      var p := CompositeKey.CreateCompositeKey(objectType, attributes);
      if p.Err? {
        return Err(p.error);
      }
      var entries := RangeQuery(p.value, p.value + [LexOrder.Top]);
      return Ok(entries);
    }
  }
}
