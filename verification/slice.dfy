/**
  `createSliceStore`: one root record, read and written whole, per key, or per
  key set. The store engine and the optics library are replaced by plain map
  operations: the `pick(keys)` focus is map restriction and the `prop(key)`
  focus is a single-key read or update.
 */
module Slice {
  import opened Utils

  /** A keyed record: the own enumerable string-keyed properties of an object. */
  type Record = map<string, Value>

  /** The optional key list taken by `getState` and `resetState`. */
  datatype KeyArg = Omitted | Listed(keys: seq<string>)

  /** A slice store: the record it was created from, and the current root. */
  datatype Store = Store(initial: Record, root: Record)

  /** Every reachable store keeps exactly the keys a deep copy of its initial
      record holds: all of them but `__proto__`. */
  predicate Valid(s: Store) {
    s.root.Keys == s.initial.Keys - {ProtoKey}
  }

  /** `cloneDeep` applied to a whole record: every key but `__proto__`, each
      with a deep copy of its value. */
  function CloneRecord(m: Record): (r: Record)
    ensures r.Keys == m.Keys - {ProtoKey}
    ensures forall k :: k in r ==> r[k] == Clone(m[k])
  {
    map k | k in m && k != ProtoKey :: Clone(m[k])
  }

  /** The store right after creation: the root is a deep copy of the initial record. */
  function Create(initial: Record): (s: Store)
    ensures s.initial == initial
    ensures Valid(s)
    ensures forall k :: k in initial && k != ProtoKey ==> s.root[k] == Clone(initial[k])
  {
    Store(initial, CloneRecord(initial))
  }

  /** Right after creation the root equals the initial record without its
      `__proto__` key, whenever the values hold nothing a deep copy drops. */
  lemma CreateEqualsInitial(initial: Record)
    requires forall k :: k in initial ==> Plain(initial[k])
    ensures Create(initial).root == initial - {ProtoKey}
  {
    forall k | k in initial && k != ProtoKey
      ensures Create(initial).root[k] == initial[k]
    {
      ClonePlainIdentity(initial[k]);
    }
  }

  // ---------------------------------------------------------------------------
  // Reading
  // ---------------------------------------------------------------------------

  /** The `pick(keys)` focus: the root restricted to the listed keys. */
  function Pick(root: Record, keys: seq<string>): (r: Record)
    requires forall k :: k in keys ==> k in root
    ensures forall k :: k in r <==> k in keys
    ensures forall k :: k in r ==> r[k] == root[k]
  {
    map k | k in keys :: root[k]
  }

  /** `getState(keys?)`: the whole root when no list is given, otherwise the
      pick of the listed keys (an empty list is a list, and picks nothing). */
  function GetState(s: Store, arg: KeyArg): (r: Record)
    requires arg.Listed? ==> forall k :: k in arg.keys ==> k in s.root
    ensures arg.Omitted? ==> r == s.root
    ensures arg.Listed? ==> forall k :: k in r <==> k in arg.keys
    ensures forall k :: k in r ==> k in s.root && r[k] == s.root[k]
  {
    match arg
    case Omitted => s.root
    case Listed(keys) => Pick(s.root, keys)
  }

  /** `getStateByKey(key)`: the `prop(key)` focus read. */
  function GetStateByKey(s: Store, key: string): (v: Value)
    requires key in s.root
    ensures GetState(s, Listed([key])) == map[key := v]
  {
    s.root[key]
  }

  // ---------------------------------------------------------------------------
  // Writing
  // ---------------------------------------------------------------------------

  /** `setStateByKey(key, value)`: the `prop(key)` focus write. */
  function SetStateByKey(s: Store, key: string, value: Value): (r: Store)
    requires key in s.root
    ensures r.initial == s.initial
    ensures r.root.Keys == s.root.Keys
    ensures r.root[key] == value
    ensures forall k :: k in s.root && k != key ==> r.root[k] == s.root[k]
  {
    s.(root := s.root[key := value])
  }

  /** Reading a key back after writing it gives the written value; every other
      key reads as before. */
  lemma SetThenGet(s: Store, key: string, value: Value, other: string)
    requires key in s.root && other in s.root
    ensures GetStateByKey(SetStateByKey(s, key, value), key) == value
    ensures other != key ==>
      GetStateByKey(SetStateByKey(s, key, value), other) == GetStateByKey(s, other)
  {
  }

  /** A partial record, as the `(key, value)` pairs `Object.keys` enumerates. */
  type Patch = seq<(string, Value)>

  predicate DistinctKeys(p: Patch) {
    forall i, j :: 0 <= i < j < |p| ==> p[i].0 != p[j].0
  }

  predicate HasKey(p: Patch, k: string) {
    exists i :: 0 <= i < |p| && p[i].0 == k
  }

  predicate KeysIn(p: Patch, root: Record) {
    forall i :: 0 <= i < |p| ==> p[i].0 in root
  }

  /** `setState(partial)`: one single-key write per key of `partial`, in order. */
  function SetState(s: Store, partial: Patch): (r: Store)
    requires DistinctKeys(partial)
    requires KeysIn(partial, s.root)
    ensures r.initial == s.initial
    ensures r.root.Keys == s.root.Keys
    ensures forall i :: 0 <= i < |partial| ==> r.root[partial[i].0] == partial[i].1
    ensures forall k :: k in s.root && !HasKey(partial, k) ==> r.root[k] == s.root[k]
    decreases |partial|
  {
    if |partial| == 0 then s
    else
      var rest := SetState(SetStateByKey(s, partial[0].0, partial[0].1), partial[1..]);
      assert forall j :: 0 <= j < |partial| - 1 ==> partial[1..][j] == partial[j + 1];
      assert partial[0].0 !in set j | 0 <= j < |partial| - 1 :: partial[1..][j].0;
      rest
  }

  /** The roots `setState(partial)` passes through: each one is the previous
      one with a single key written, and the last one is the result. */
  function SetStateTrace(s: Store, partial: Patch): (t: seq<Store>)
    requires DistinctKeys(partial)
    requires KeysIn(partial, s.root)
    ensures |t| == |partial| + 1
    ensures t[0] == s
    ensures t[|partial|] == SetState(s, partial)
    ensures forall i :: 0 <= i < |t| ==> t[i].root.Keys == s.root.Keys
    ensures forall i :: 0 <= i < |partial| ==>
      partial[i].0 in t[i].root && t[i + 1] == SetStateByKey(t[i], partial[i].0, partial[i].1)
    decreases |partial|
  {
    if |partial| == 0 then [s]
    else
      var next := SetStateByKey(s, partial[0].0, partial[0].1);
      var tail := SetStateTrace(next, partial[1..]);
      var t := [s] + tail;
      forall i | 0 <= i < |partial|
        ensures partial[i].0 in t[i].root
        ensures t[i + 1] == SetStateByKey(t[i], partial[i].0, partial[i].1)
      {
        if i > 0 {
          assert partial[i] == partial[1..][i - 1];
          assert t[i] == tail[i - 1] && t[i + 1] == tail[i];
        }
      }
      assert t[|partial|] == tail[|partial| - 1];
      t
  }

  // ---------------------------------------------------------------------------
  // Resetting
  // ---------------------------------------------------------------------------

  /** The test `resetState` uses to choose a full reset: no list, an empty
      list, or a list exactly as long as the initial record has keys. */
  predicate IsResetAll(initial: Record, arg: KeyArg) {
    arg.Omitted? || |arg.keys| == 0 || |arg.keys| == |initial|
  }

  /** `initialState[key]`: undefined for a key the initial record lacks. */
  function InitialValue(initial: Record, key: string): (v: Value)
    ensures key in initial ==> v == initial[key]
    ensures key !in initial ==> v == Prim(Undefined)
  {
    if key in initial then initial[key] else Prim(Undefined)
  }

  lemma HasKeyFirst(p: Patch)
    requires |p| > 0
    ensures forall k :: HasKey(p, k) <==> p[0].0 == k || HasKey(p[1..], k)
  {
  }

  /** `acc[key] = value` on a plain object: an existing key keeps its place and
      takes the new value, a new key is appended. */
  function Assign(acc: Patch, key: string, value: Value): (r: Patch)
    requires DistinctKeys(acc)
    ensures DistinctKeys(r)
    ensures forall k :: HasKey(r, k) <==> HasKey(acc, k) || k == key
    ensures forall i :: 0 <= i < |r| && r[i].0 == key ==> r[i].1 == value
    ensures forall i :: 0 <= i < |r| && r[i].0 != key ==> r[i] in acc
  {
    if |acc| == 0 then
      assert [(key, value)][0].0 == key;
      [(key, value)]
    else if acc[0].0 == key then
      var r := [(key, value)] + acc[1..];
      HasKeyFirst(acc);
      HasKeyFirst(r);
      assert r[1..] == acc[1..];
      r
    else
      var tail := Assign(acc[1..], key, value);
      HasKeyFirst(acc);
      HasKeyFirst([acc[0]] + tail);
      assert ([acc[0]] + tail)[1..] == tail;
      assert forall i :: 0 <= i < |tail| ==> tail[i].0 != acc[0].0 by {
        forall i | 0 <= i < |tail|
          ensures tail[i].0 != acc[0].0
        {
          if tail[i].0 != key {
            assert tail[i] in acc[1..];
          }
        }
      }
      [acc[0]] + tail
  }

  /** The `reduce` in `resetState`: the initial value of every listed key,
      each key once, in order of first mention. */
  function Accumulate(initial: Record, keys: seq<string>): (r: Patch)
    ensures DistinctKeys(r)
    ensures forall k :: HasKey(r, k) <==> k in keys
    ensures forall i :: 0 <= i < |r| ==> r[i].1 == InitialValue(initial, r[i].0)
    decreases |keys|
  {
    if |keys| == 0 then []
    else
      var front := keys[..|keys| - 1];
      var last := keys[|keys| - 1];
      assert keys == front + [last];
      Assign(Accumulate(initial, front), last, InitialValue(initial, last))
  }

  /** `cloneDeep` applied to a partial record. */
  function ClonePatch(p: Patch): (r: Patch)
    ensures |r| == |p|
    ensures forall i :: 0 <= i < |p| ==> r[i].0 == p[i].0 && r[i].1 == Clone(p[i].1)
  {
    seq(|p|, i requires 0 <= i < |p| => (p[i].0, Clone(p[i].1)))
  }

  /** The partial record a partial reset writes back. */
  function ResetPatch(initial: Record, keys: seq<string>): (r: Patch)
    ensures DistinctKeys(r)
    ensures forall k :: HasKey(r, k) <==> k in keys
    ensures forall i :: 0 <= i < |r| ==> r[i].1 == Clone(InitialValue(initial, r[i].0))
  {
    var acc := Accumulate(initial, keys);
    var r := ClonePatch(acc);
    assert forall k :: HasKey(r, k) <==> HasKey(acc, k) by {
      forall k | HasKey(acc, k) ensures HasKey(r, k) {
        var i :| 0 <= i < |acc| && acc[i].0 == k;
        assert r[i].0 == k;
      }
    }
    r
  }

  /** The partial branch of `resetState`: `setState` of a deep copy of the
      listed keys' initial values. */
  function PartialReset(s: Store, keys: seq<string>): (r: Store)
    requires forall k :: k in keys ==> k in s.root
    ensures r.initial == s.initial
    ensures r.root.Keys == s.root.Keys
    ensures forall k :: k in keys ==> r.root[k] == Clone(InitialValue(s.initial, k))
    ensures forall k :: k in s.root && k !in keys ==> r.root[k] == s.root[k]
  {
    var p := ResetPatch(s.initial, keys);
    assert KeysIn(p, s.root) by {
      forall i | 0 <= i < |p| ensures p[i].0 in s.root {
        assert HasKey(p, p[i].0);
      }
    }
    var r := SetState(s, p);
    assert forall k :: k in keys ==> r.root[k] == Clone(InitialValue(s.initial, k)) by {
      forall k | k in keys
        ensures r.root[k] == Clone(InitialValue(s.initial, k))
      {
        assert HasKey(p, k);
        var i :| 0 <= i < |p| && p[i].0 == k;
      }
    }
    r
  }

  /** What `resetState` needs of its caller: a partial reset writes through
      `prop(key)`, so every listed key must be in the root. */
  predicate ResetAllowed(s: Store, arg: KeyArg) {
    IsResetAll(s.initial, arg) || forall k :: k in arg.keys ==> k in s.root
  }

  /** `resetState(keys?)`: a full reset to a deep copy of the initial record,
      or the listed keys set back to deep copies of their initial values. */
  function ResetState(s: Store, arg: KeyArg): (r: Store)
    requires ResetAllowed(s, arg)
    ensures r.initial == s.initial
    ensures IsResetAll(s.initial, arg) ==>
      && r.root.Keys == s.initial.Keys - {ProtoKey}
      && forall k :: k in s.initial && k != ProtoKey ==> r.root[k] == Clone(s.initial[k])
    ensures !IsResetAll(s.initial, arg) ==>
      && r.root.Keys == s.root.Keys
      && (forall k :: k in arg.keys ==> r.root[k] == Clone(InitialValue(s.initial, k)))
      && (forall k :: k in s.root && k !in arg.keys ==> r.root[k] == s.root[k])
  {
    if IsResetAll(s.initial, arg) then s.(root := CloneRecord(s.initial))
    else
      PartialReset(s, arg.keys)
  }

  /** Resetting the same keys twice is resetting them once. */
  lemma ResetIdempotent(s: Store, arg: KeyArg)
    requires ResetAllowed(s, arg)
    ensures ResetAllowed(ResetState(s, arg), arg)
    ensures ResetState(ResetState(s, arg), arg) == ResetState(s, arg)
  {
  }

  // ---------------------------------------------------------------------------
  // Reset by key coverage
  // ---------------------------------------------------------------------------

  /** Whether a key list names every key of the initial record. */
  predicate Covers(initial: Record, keys: seq<string>) {
    forall k :: k in initial ==> k in keys
  }

  /** The full-reset test the length comparison stands in for: no list, an
      empty list, or a list naming every initial key. */
  predicate IsResetAllIntended(initial: Record, arg: KeyArg) {
    arg.Omitted? || |arg.keys| == 0 || Covers(initial, arg.keys)
  }

  /** `resetState` with the full reset chosen by key coverage instead of by
      list length. */
  function ResetStateIntended(s: Store, arg: KeyArg): (r: Store)
    requires IsResetAllIntended(s.initial, arg) || forall k :: k in arg.keys ==> k in s.root
    ensures r.initial == s.initial
    ensures IsResetAllIntended(s.initial, arg) ==>
      && r.root.Keys == s.initial.Keys - {ProtoKey}
      && forall k :: k in s.initial && k != ProtoKey ==> r.root[k] == Clone(s.initial[k])
    ensures !IsResetAllIntended(s.initial, arg) ==>
      && r.root.Keys == s.root.Keys
      && (forall k :: k in arg.keys ==> r.root[k] == Clone(InitialValue(s.initial, k)))
      && (forall k :: k in s.root && k !in arg.keys ==> r.root[k] == s.root[k])
  {
    if IsResetAllIntended(s.initial, arg) then s.(root := CloneRecord(s.initial))
    else
      PartialReset(s, arg.keys)
  }

  /** With a non-empty key list, the coverage-based reset restores exactly the
      listed keys and leaves every other key as it was. */
  lemma ResetIntendedRestoresExactlyListed(s: Store, keys: seq<string>)
    requires Valid(s)
    requires |keys| > 0
    requires forall k :: k in keys ==> k in s.root
    ensures forall k :: k in keys ==>
      ResetStateIntended(s, Listed(keys)).root[k] == Clone(s.initial[k])
    ensures forall k :: k in s.root && k !in keys ==>
      ResetStateIntended(s, Listed(keys)).root[k] == s.root[k]
  {
  }

  /** The length test resets a key that was not listed: with two initial keys,
      the list `["a", "a"]` has the length of a full list, so `b` is reset too,
      where the coverage-based reset leaves it alone. */
  lemma ResetRepeatedKeyResetsUnlisted()
    ensures
      var initial := map["a" := Prim(Number(1)), "b" := Prim(Number(2))];
      var s := Store(initial, initial["b" := Prim(Number(5))]);
      && ResetState(s, Listed(["a", "a"])).root["b"] == Prim(Number(2))
      && ResetStateIntended(s, Listed(["a", "a"])).root["b"] == Prim(Number(5))
  {
    var initial := map["a" := Prim(Number(1)), "b" := Prim(Number(2))];
    assert |initial| == 2 by {
      assert initial.Keys == {"a", "b"};
    }
    var s := Store(initial, initial["b" := Prim(Number(5))]);
    assert !Covers(initial, ["a", "a"]) by {
      assert "b" in initial && "b" !in ["a", "a"];
    }
  }

  predicate NoRepeats(keys: seq<string>) {
    forall i, j :: 0 <= i < j < |keys| ==> keys[i] != keys[j]
  }

  lemma {:induction false} NoRepeatsCard(keys: seq<string>)
    requires NoRepeats(keys)
    ensures |set k | k in keys| == |keys|
  {
    if |keys| > 0 {
      var rest := keys[1..];
      assert NoRepeats(rest) by {
        forall i, j | 0 <= i < j < |rest| ensures rest[i] != rest[j] {
          assert rest[i] == keys[i + 1] && rest[j] == keys[j + 1];
        }
      }
      NoRepeatsCard(rest);
      assert keys[0] !in rest by {
        forall i | 0 <= i < |rest| ensures rest[i] != keys[0] {
          assert rest[i] == keys[i + 1];
        }
      }
      assert (set k | k in keys) == (set k | k in rest) + {keys[0]} by {
        assert keys == [keys[0]] + rest;
      }
    }
  }

  lemma SubsetSameSize<X>(a: set<X>, b: set<X>)
    requires a <= b && |a| == |b|
    ensures a == b
  {
    assert a + b == b && a * b == a;
    assert |a - b| == 0;
  }

  /** For a key list without repeats drawn from the initial keys, the list
      is as long as the initial record exactly when it names every key. */
  lemma LengthTestIsCoverageTest(initial: Record, keys: seq<string>)
    requires NoRepeats(keys)
    requires forall k :: k in keys ==> k in initial
    ensures IsResetAll(initial, Listed(keys)) <==> IsResetAllIntended(initial, Listed(keys))
  {
    var listed := set k | k in keys;
    NoRepeatsCard(keys);
    assert listed <= initial.Keys;
    assert |initial| == |initial.Keys|;
    if |keys| == |initial| {
      SubsetSameSize(listed, initial.Keys);
      assert Covers(initial, keys);
    }
    if Covers(initial, keys) {
      assert listed == initial.Keys;
    }
  }

  /** Without repeated keys the length test and the coverage test agree, so
      both resets give the same store. */
  lemma ResetAgreesWithoutRepeats(s: Store, keys: seq<string>)
    requires Valid(s)
    requires NoRepeats(keys)
    requires forall k :: k in keys ==> k in s.root
    ensures ResetState(s, Listed(keys)) == ResetStateIntended(s, Listed(keys))
  {
    LengthTestIsCoverageTest(s.initial, keys);
  }

  // ---------------------------------------------------------------------------
  // Histories
  // ---------------------------------------------------------------------------

  /** The store's public write operations. */
  datatype Op =
    | SetStateOp(partial: Patch)
    | SetStateByKeyOp(key: string, value: Value)
    | ResetStateOp(arg: KeyArg)

  predicate Enabled(s: Store, op: Op) {
    match op
    case SetStateOp(p) => DistinctKeys(p) && KeysIn(p, s.root)
    case SetStateByKeyOp(k, _) => k in s.root
    case ResetStateOp(arg) => ResetAllowed(s, arg)
  }

  function Apply(s: Store, op: Op): (r: Store)
    requires Enabled(s, op)
    ensures r.initial == s.initial
    ensures Valid(s) ==> Valid(r)
  {
    match op
    case SetStateOp(p) => SetState(s, p)
    case SetStateByKeyOp(k, v) => SetStateByKey(s, k, v)
    case ResetStateOp(arg) => ResetState(s, arg)
  }

  predicate Runnable(s: Store, ops: seq<Op>)
    decreases |ops|
  {
    |ops| == 0 || (Enabled(s, ops[0]) && Runnable(Apply(s, ops[0]), ops[1..]))
  }

  /** A history of writes applied in order. No write changes the record the
      store was created from, and none adds or removes a key. */
  function Run(s: Store, ops: seq<Op>): (r: Store)
    requires Runnable(s, ops)
    ensures r.initial == s.initial
    ensures Valid(s) ==> Valid(r)
    decreases |ops|
  {
    if |ops| == 0 then s else Run(Apply(s, ops[0]), ops[1..])
  }

  /** A full reset after any history gives back the store as created. */
  lemma ResetAfterAnyHistory(initial: Record, ops: seq<Op>)
    requires Runnable(Create(initial), ops)
    ensures ResetState(Run(Create(initial), ops), Omitted) == Create(initial)
  {
    var r := ResetState(Run(Create(initial), ops), Omitted);
    assert r.root == Create(initial).root;
  }
}
